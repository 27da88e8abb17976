/**
 * The agent's data: messages, tools and the tool table, and how a message
 * list is rendered for the language model (`message_id_to_context`,
 * `get_context` and the per-message request list built in `run`).
 */
module AgentContext {
  import opened Text
  import opened Results
  import ResponseParser

  /** The four roles a message can carry. */
  datatype Role = SystemRole | UserRole | AssistantRole | ToolRole
  {
    function Name(): string
    {
      match this
      case SystemRole => "system"
      case UserRole => "user"
      case AssistantRole => "assistant"
      case ToolRole => "tool"
    }
  }

  /** One entry of `id_to_message` (its wall-clock timestamp is not modelled). */
  datatype Message = Message(role: Role, content: string, uniqueId: int)

  /** Every message's `unique_id` is its position in the list. */
  predicate IdsConsistent(msgs: seq<Message>)
  {
    forall i :: 0 <= i < |msgs| ==> msgs[i].uniqueId == i
  }

  /** What calling a tool does: return text, or raise an exception of some kind. */
  datatype ToolOutcome = Returned(text: string) | Raised(kind: string, detail: string)

  /** A registered tool: its `__name__`, its signature and docstring as shown in
      the system message, and the call `tool(**arguments)`. */
  datatype Tool = Tool(name: string, signature: string, doc: string, invoke: map<string, string> -> ToolOutcome)

  /** An entry of the list given to `add_functions`: a callable, or some other value, kept as its `str` text. */
  datatype Candidate = Callable(tool: Tool) | NotCallable(shown: string)

  /** `function_map`: tools by name, and the names in insertion order (the order a Python dict keeps). */
  datatype ToolTable = ToolTable(byName: map<string, Tool>, order: seq<string>)
  {
    ghost predicate Valid()
    {
      (forall n :: n in byName <==> n in order)
      && forall i, j :: 0 <= i < j < |order| ==> order[i] != order[j]
    }

    /** `function_map[tool.__name__] = tool`: a new name goes last, a known one keeps its place. */
    function Register(tool: Tool): (r: ToolTable)
      ensures Valid() ==> r.Valid()
      ensures tool.name in r.byName && r.byName[tool.name] == tool
      ensures forall n :: n != tool.name ==> (n in r.byName <==> n in byName)
      ensures forall n :: n != tool.name && n in byName ==> r.byName[n] == byName[n]
      ensures |order| <= |r.order| && r.order[..|order|] == order
    {
      ToolTable(byName[tool.name := tool], if tool.name in byName then order else order + [tool.name])
    }
  }

  /** `finish(**arguments)`: the result when `result` is the only keyword; any
      other set of keywords makes the call itself raise a `TypeError`. */
  function FinishCall(args: map<string, string>): (r: ToolOutcome)
    ensures r.Returned? <==> args.Keys == {"result"}
    ensures r.Returned? ==> r.text == args["result"]
  {
    if exists k :: k in args && k != "result" then
      Raised("TypeError", "ReactAgent.finish() got an unexpected keyword argument")
    else if "result" !in args then
      Raised("TypeError", "ReactAgent.finish() missing 1 required positional argument: 'result'")
    else
      Returned(args["result"])
  }

  const FinishDoc: string :=
    "The agent must call this function with the final result when it has solved the given task. "
    + "The function calls \"git add -A and git diff --cached\" to generate a patch and returns the patch as submission.\n"
    + "\nArgs: \n    result (str); the result generated by the agent\n"
    + "\nReturns:\n    The result passed as an argument.  The result is then returned by the agent's run method."

  /** The bound method `finish` as a tool. */
  function FinishTool(): Tool
  {
    Tool("finish", "(result: str)", FinishDoc, FinishCall)
  }

  // ---------------------------------------------------------------------
  // Rendering one message

  const TruncateAbove: nat := 4096
  const KeepChars: nat := 2048

  /** The marker put between the kept head and tail of a long tool output. */
  function TruncationMarker(dropped: nat): string
  {
    "\n... [TRUNCATED " + NatToString(dropped) + " CHARS] ...\n"
  }

  /** A long tool output cut down to its first and last 2048 characters. */
  function Truncated(content: string): (r: string)
    requires |content| > TruncateAbove
    ensures |r| > 2 * KeepChars
    ensures r[..KeepChars] == content[..KeepChars]
    ensures r[|r| - KeepChars..] == content[|content| - KeepChars..]
    ensures r[KeepChars..|r| - KeepChars] == TruncationMarker(|content| - 2 * KeepChars)
  {
    var head, tail := content[..KeepChars], content[|content| - KeepChars..];
    var r := head + TruncationMarker(|content| - (|head| + |tail|)) + tail;
    assert r[..KeepChars] == head;
    assert r[|r| - KeepChars..] == tail;
    r
  }

  /** Message `id` is an older tool output over the limit. */
  predicate Truncates(msgs: seq<Message>, id: int)
    requires 0 <= id < |msgs|
  {
    msgs[id].role == ToolRole && id != |msgs| - 1 && |msgs[id].content| > TruncateAbove
  }

  /** The content as it appears in the context. */
  function ShownContent(msgs: seq<Message>, id: int): (r: string)
    requires 0 <= id < |msgs|
    ensures !Truncates(msgs, id) ==> r == msgs[id].content
    ensures Truncates(msgs, id) ==> r == Truncated(msgs[id].content)
  {
    if Truncates(msgs, id) then Truncated(msgs[id].content) else msgs[id].content
  }

  function Header(m: Message): string
  {
    "----------------------------\n|MESSAGE(role=\"" + m.role.Name() + "\", id=" + IntToString(m.uniqueId) + ")|\n"
  }

  /** `Function: name(signature)\ndoc\n` */
  function ToolDescription(t: Tool): string
  {
    "Function: " + t.name + t.signature + "\n" + t.doc + "\n"
  }

  /** The descriptions of the tools named in `order`, in that order. */
  function Descriptions(byName: map<string, Tool>, order: seq<string>): seq<string>
  {
    if order == [] then []
    else (if order[0] in byName then [ToolDescription(byName[order[0]])] else []) + Descriptions(byName, order[1..])
  }

  /** What the system message carries after its content: the tools and the call format. */
  function SystemSuffix(table: ToolTable): string
  {
    "--- AVAILABLE TOOLS ---\n" + Join(Descriptions(table.byName, table.order), "\n")
    + "\n----AVAILABLE TOOLS END----\n"
    + "--- RESPONSE FORMAT ---\n" + ResponseParser.ResponseFormat + "\n----RESPONSE FORMAT END----\n"
  }

  /** `message_id_to_context(id)` */
  function RenderMessage(msgs: seq<Message>, table: ToolTable, id: int): string
    requires 0 <= id < |msgs|
  {
    var body := Header(msgs[id]) + ShownContent(msgs, id) + "\n";
    if msgs[id].role == SystemRole then body + SystemSuffix(table) else body
  }

  /** The tool descriptions of a table whose order names only registered tools:
      one per name in the order, in that order. */
  lemma {:induction false} DescriptionsInOrder(byName: map<string, Tool>, order: seq<string>)
    requires forall i :: 0 <= i < |order| ==> order[i] in byName
    ensures var d := Descriptions(byName, order);
      |d| == |order| && forall i :: 0 <= i < |order| ==> d[i] == ToolDescription(byName[order[i]])
    decreases |order|
  {
    if order != [] {
      DescriptionsInOrder(byName, order[1..]);
      var d := Descriptions(byName, order);
      assert d == [ToolDescription(byName[order[0]])] + Descriptions(byName, order[1..]);
      forall i | 0 < i < |order| ensures d[i] == ToolDescription(byName[order[i]]) {
        assert order[1..][i - 1] == order[i];
      }
    }
  }

  /** The layout of `message_id_to_context(id)`: the header naming the role and
      id, the content (cut down only for an older long tool output) and a
      newline; the system message then carries the tools and the response format. */
  lemma RenderLayout(msgs: seq<Message>, table: ToolTable, id: int)
    requires 0 <= id < |msgs|
    ensures var m, r := msgs[id], RenderMessage(msgs, table, id);
      (m.role != ToolRole ==> ShownContent(msgs, id) == m.content)
      && (m.role != SystemRole ==> r == Header(m) + ShownContent(msgs, id) + "\n")
      && (m.role == SystemRole ==> r == Header(m) + m.content + "\n" + SystemSuffix(table))
  {
  }

  /** The system message's tool section lists every registered tool once, in
      registration order, between its two headings, and the response format follows. */
  lemma SystemListsTools(table: ToolTable)
    requires table.Valid()
    ensures var d := Descriptions(table.byName, table.order);
      SystemSuffix(table)
        == "--- AVAILABLE TOOLS ---\n" + Join(d, "\n") + "\n----AVAILABLE TOOLS END----\n"
           + "--- RESPONSE FORMAT ---\n" + ResponseParser.ResponseFormat + "\n----RESPONSE FORMAT END----\n"
      && |d| == |table.order|
      && (forall i :: 0 <= i < |d| ==> d[i] == ToolDescription(table.byName[table.order[i]]))
      && (forall n :: n in table.byName ==> exists i :: 0 <= i < |d| && d[i] == ToolDescription(table.byName[n]))
  {
    var d := Descriptions(table.byName, table.order);
    DescriptionsInOrder(table.byName, table.order);
    forall n | n in table.byName ensures exists i :: 0 <= i < |d| && d[i] == ToolDescription(table.byName[n]) {
      var i :| 0 <= i < |table.order| && table.order[i] == n;
      assert d[i] == ToolDescription(table.byName[n]);
    }
  }

  /** Appending a message re-renders no earlier message, except a long tool
      output that was last before and is now cut down. */
  lemma RenderStable(msgs: seq<Message>, m: Message, table: ToolTable, id: int)
    requires 0 <= id < |msgs|
    ensures !(id == |msgs| - 1 && msgs[id].role == ToolRole && |msgs[id].content| > TruncateAbove)
      ==> RenderMessage(msgs + [m], table, id) == RenderMessage(msgs, table, id)
    ensures (id == |msgs| - 1 && msgs[id].role == ToolRole && |msgs[id].content| > TruncateAbove)
      ==> RenderMessage(msgs + [m], table, id) == Header(msgs[id]) + Truncated(msgs[id].content) + "\n"
  {
    assert (msgs + [m])[id] == msgs[id];
  }

  // ---------------------------------------------------------------------
  // The context string and the request list

  /** The rendering of every message, in id order. */
  function Rendered(msgs: seq<Message>, table: ToolTable, n: int): (r: seq<string>)
    requires 0 <= n <= |msgs|
    ensures |r| == n
  {
    if n == 0 then [] else Rendered(msgs, table, n - 1) + [RenderMessage(msgs, table, n - 1)]
  }

  lemma {:induction false} RenderedAt(msgs: seq<Message>, table: ToolTable, n: int, i: int)
    requires 0 <= i < n <= |msgs|
    ensures Rendered(msgs, table, n)[i] == RenderMessage(msgs, table, i)
    decreases n
  {
    if i < n - 1 {
      RenderedAt(msgs, table, n - 1, i);
    }
  }

  /** The entries `lo..hi-1`, each followed by a newline, leaving out entry
      `systemId` when the system message is not wanted. */
  function Joined(entries: seq<string>, systemId: int, includeSystem: bool, lo: int, hi: int): string
    requires 0 <= lo <= hi <= |entries|
    decreases hi - lo
  {
    if lo == hi then ""
    else
      var entry := if !includeSystem && hi - 1 == systemId then "" else entries[hi - 1] + "\n";
      Joined(entries, systemId, includeSystem, lo, hi - 1) + entry
  }

  /** One more entry on the right: the rendering of entry `i` and a newline,
      unless it is the system entry being left out. */
  lemma JoinedNext(entries: seq<string>, systemId: int, includeSystem: bool, i: int, j: int)
    requires 0 <= i < |entries| && j == i + 1
    ensures Joined(entries, systemId, includeSystem, 0, j)
         == Joined(entries, systemId, includeSystem, 0, i)
            + (if !includeSystem && i == systemId then "" else entries[i] + "\n")
  {
  }

  /** `get_context(include_system)` */
  function Context(msgs: seq<Message>, table: ToolTable, systemId: int, includeSystem: bool): string
  {
    Joined(Rendered(msgs, table, |msgs|), systemId, includeSystem, 0, |msgs|)
  }

  lemma {:induction false} JoinedSplit(entries: seq<string>, systemId: int, includeSystem: bool, lo: int, mid: int, hi: int)
    requires 0 <= lo <= mid <= hi <= |entries|
    ensures Joined(entries, systemId, includeSystem, lo, hi)
         == Joined(entries, systemId, includeSystem, lo, mid) + Joined(entries, systemId, includeSystem, mid, hi)
    decreases hi - mid
  {
    if mid < hi {
      JoinedSplit(entries, systemId, includeSystem, lo, mid, hi - 1);
    }
  }

  /** A range without the system message joins the same either way. */
  lemma {:induction false} JoinedAway(entries: seq<string>, systemId: int, lo: int, hi: int)
    requires 0 <= lo <= hi <= |entries|
    requires !(lo <= systemId < hi)
    ensures Joined(entries, systemId, false, lo, hi) == Joined(entries, systemId, true, lo, hi)
    decreases hi - lo
  {
    if lo < hi {
      JoinedAway(entries, systemId, lo, hi - 1);
    }
  }

  lemma JoinedOmits(entries: seq<string>, systemId: int)
    requires 0 <= systemId < |entries|
    ensures var n := |entries|;
      var before, after := Joined(entries, systemId, true, 0, systemId), Joined(entries, systemId, true, systemId + 1, n);
      Joined(entries, systemId, true, 0, n) == before + (entries[systemId] + "\n") + after
      && Joined(entries, systemId, false, 0, n) == before + after
  {
    var n := |entries|;
    JoinedSplit(entries, systemId, true, 0, systemId, n);
    JoinedSplit(entries, systemId, false, 0, systemId, n);
    JoinedSplit(entries, systemId, true, systemId, systemId + 1, n);
    JoinedSplit(entries, systemId, false, systemId, systemId + 1, n);
    JoinedAway(entries, systemId, 0, systemId);
    JoinedAway(entries, systemId, systemId + 1, n);
  }

  /** Leaving out the system message removes exactly its entry, and the other
      messages keep their id order. */
  lemma ContextOmitsSystem(msgs: seq<Message>, table: ToolTable, systemId: int)
    requires 0 <= systemId < |msgs|
    ensures var entries := Rendered(msgs, table, |msgs|);
      var before := Joined(entries, systemId, true, 0, systemId);
      var after := Joined(entries, systemId, true, systemId + 1, |msgs|);
      Context(msgs, table, systemId, true) == before + (RenderMessage(msgs, table, systemId) + "\n") + after
      && Context(msgs, table, systemId, false) == before + after
  {
    RenderedAt(msgs, table, |msgs|, systemId);
    JoinedOmits(Rendered(msgs, table, |msgs|), systemId);
  }

  /** One entry of the list handed to the language model. */
  datatype ChatEntry = ChatEntry(role: Role, content: string)

  /** The entries for messages `0..n-1`, each with its own role and rendering. */
  function RequestPrefix(msgs: seq<Message>, table: ToolTable, n: int): (r: seq<ChatEntry>)
    requires 0 <= n <= |msgs|
    ensures |r| == n
  {
    if n == 0 then [] else RequestPrefix(msgs, table, n - 1) + [ChatEntry(msgs[n - 1].role, RenderMessage(msgs, table, n - 1))]
  }

  /** `llm_messages` in `run`: every message in id order, then the system message again. */
  function Request(msgs: seq<Message>, table: ToolTable, systemId: int): seq<ChatEntry>
    requires 0 <= systemId < |msgs|
  {
    RequestPrefix(msgs, table, |msgs|) + [ChatEntry(SystemRole, Rendered(msgs, table, |msgs|)[systemId])]
  }

  lemma {:induction false} RequestPrefixAt(msgs: seq<Message>, table: ToolTable, n: int, i: int)
    requires 0 <= i < n <= |msgs|
    ensures RequestPrefix(msgs, table, n)[i] == ChatEntry(msgs[i].role, RenderMessage(msgs, table, i))
    decreases n
  {
    if i < n - 1 {
      RequestPrefixAt(msgs, table, n - 1, i);
    }
  }

  /** The request has one entry per message, in id order and with that message's
      role, and ends with the system message's rendering under role "system". */
  lemma RequestShape(msgs: seq<Message>, table: ToolTable, systemId: int)
    requires 0 <= systemId < |msgs|
    ensures var req := Request(msgs, table, systemId);
      |req| == |msgs| + 1
      && (forall i :: 0 <= i < |msgs| ==> req[i] == ChatEntry(msgs[i].role, RenderMessage(msgs, table, i)))
      && req[|msgs|] == ChatEntry(SystemRole, RenderMessage(msgs, table, systemId))
  {
    forall i | 0 <= i < |msgs| ensures Request(msgs, table, systemId)[i] == ChatEntry(msgs[i].role, RenderMessage(msgs, table, i)) {
      RequestPrefixAt(msgs, table, |msgs|, i);
    }
    RenderedAt(msgs, table, |msgs|, systemId);
  }

  // ---------------------------------------------------------------------
  // Changing the message list

  /** The list after appending a message with the next id. */
  function Append(msgs: seq<Message>, role: Role, content: string): (r: seq<Message>)
    ensures IdsConsistent(msgs) ==> IdsConsistent(r)
    ensures |r| == |msgs| + 1 && r[..|msgs|] == msgs
    ensures r[|msgs|] == Message(role, content, |msgs|)
  {
    assert (msgs + [Message(role, content, |msgs|)])[..|msgs|] == msgs;
    msgs + [Message(role, content, |msgs|)]
  }

  /** The list after `id_to_message[id]["content"] = content`. */
  function WithContent(msgs: seq<Message>, id: int, content: string): (r: seq<Message>)
    requires 0 <= id < |msgs|
    ensures |r| == |msgs| && r[id].content == content
    ensures forall i :: 0 <= i < |msgs| ==> r[i].role == msgs[i].role && r[i].uniqueId == msgs[i].uniqueId
    ensures forall i :: 0 <= i < |msgs| && i != id ==> r[i] == msgs[i]
  {
    msgs[id := msgs[id].(content := content)]
  }
}
