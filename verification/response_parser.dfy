/**
 * The textual function-call protocol: four literal delimiters, the template
 * shown to the model, and the parser that extracts one call (thought, function
 * name, arguments) from free-form model output, anchoring on the LAST end
 * marker and the last begin marker that fits before it.
 */
module ResponseParser {
  import opened Text
  import opened Results

  const BeginCall: string := "----BEGIN_FUNCTION_CALL----"
  const EndCall: string := "----END_FUNCTION_CALL----"
  const ArgSep: string := "----ARG----"
  const ValueSep: string := "----VALUE----"

  /** The canonical call template placed in the system prompt and in parser corrections. */
  const ResponseFormat: string :=
    "\nyour_thoughts_here\n...\n" + BeginCall + "\nfunction_name\n" + ArgSep + "\narg1_name\n" + ValueSep
    + "\narg1_value (can be multiline)\n" + ArgSep + "\narg2_name\n" + ValueSep
    + "\narg2_value (can be multiline)\n...\n" + EndCall + "\n\nRules:\n"
    + "- Exactly one function call per response.\n"
    + "- function_name MUST match a registered tool (e.g., run_bash_cmd, finish).\n"
    + "- Every argument must include both a name and value block, even if the value is empty.\n"
    + "- Never omit the final function call.\n\n"
    + "DO NOT CHANGE ANY TEST! AS THEY WILL BE USED FOR EVALUATION.\n"

  /** The `ValueError`s `parse` raises, one per malformed case. */
  datatype ParseError =
    | MissingEnd
    | MissingBegin
    | EmptyBlock
    | MissingName
    | MissingValueSeparator
    | EmptyArgumentName
  {
    function Message(): string
    {
      match this
      case MissingEnd => "Missing END_FUNCTION_CALL marker."
      case MissingBegin => "Missing BEGIN_FUNCTION_CALL marker."
      case EmptyBlock => "Empty function call block."
      case MissingName => "Function name is missing."
      case MissingValueSeparator => "Argument missing VALUE separator."
      case EmptyArgumentName => "Argument name is empty."
    }
  }

  /** The dictionary `{"thought", "name", "arguments"}` that `parse` returns. */
  datatype ParsedCall = ParsedCall(thought: string, name: string, arguments: map<string, string>)

  /** `i` is the first occurrence of `sep` in `s`. */
  predicate SplitsFirst(s: string, sep: string, i: int)
  {
    OccursAt(s, sep, i) && forall j :: 0 <= j < i ==> !OccursAt(s, sep, j)
  }

  /** `e` is the last occurrence of `sub` in `s`. */
  ghost predicate IsLast(s: string, sub: string, e: int)
  {
    OccursAt(s, sub, e) && forall j :: e < j ==> !OccursAt(s, sub, j)
  }

  /** The markers `parse` anchors on: `e` is the last end marker and `b` the last
      begin marker lying wholly before it. */
  ghost predicate CallBlockAt(text: string, b: int, e: int)
  {
    IsLast(text, EndCall, e)
    && OccursAt(text, BeginCall, b) && b + |BeginCall| <= e
    && forall i :: OccursAt(text, BeginCall, i) && i + |BeginCall| <= e ==> i <= b
  }

  /** What one `----ARG----` section contributes to the argument dictionary:
      nothing when it is blank, otherwise the trimmed name and value on either
      side of its first `----VALUE----`. */
  function SectionEntry(section: string): Result<Option<(string, string)>, ParseError>
  {
    if Strip(section) == [] then Ok(None)
    else if !Contains(section, ValueSep) then Err(MissingValueSeparator)
    else
      var i := Find(section, ValueSep);
      var name := Strip(section[..i]);
      if name == [] then Err(EmptyArgumentName)
      else Ok(Some((name, Strip(section[i + |ValueSep|..]))))
  }

  /** A blank section is skipped; a non-blank one without `----VALUE----` fails. */
  lemma SectionEntryCases(section: string)
    ensures SectionEntry(section) == Ok(None) <==> AllSpace(section)
    ensures SectionEntry(section) == Err(MissingValueSeparator) <==>
      !AllSpace(section) && !Contains(section, ValueSep)
  {
  }

  /** A non-blank section whose first `----VALUE----` is at `i`: the name (which
      must not be blank) and the value are the trimmed text on either side of it. */
  lemma SectionEntrySplit(section: string, i: int)
    requires !AllSpace(section) && SplitsFirst(section, ValueSep, i)
    ensures SectionEntry(section) == Err(EmptyArgumentName) <==> AllSpace(section[..i])
    ensures !AllSpace(section[..i]) ==>
      SectionEntry(section) == Ok(Some((Strip(section[..i]), Strip(section[i + |ValueSep|..]))))
  {
    assert Contains(section, ValueSep);
    assert i == Find(section, ValueSep);
  }

  /** One section's contribution: skipped (`None`), a (name, value) pair, or the error it raises. */
  type Entry = Result<Option<(string, string)>, ParseError>

  function Entries(sections: seq<string>): (entries: seq<Entry>)
    ensures |entries| == |sections|
  {
    if sections == [] then [] else Entries(sections[..|sections| - 1]) + [SectionEntry(sections[|sections| - 1])]
  }

  lemma {:induction false} EntriesAt(sections: seq<string>, i: int)
    requires 0 <= i < |sections|
    ensures Entries(sections)[i] == SectionEntry(sections[i])
    decreases |sections|
  {
    if i < |sections| - 1 {
      var init := sections[..|sections| - 1];
      EntriesAt(init, i);
    }
  }

  /** `arguments[name] = value` for one entry, or the error it carries. */
  function ApplyEntry(arguments: map<string, string>, entry: Entry): Result<map<string, string>, ParseError>
  {
    match entry
    case Err(e) => Err(e)
    case Ok(None) => Ok(arguments)
    case Ok(Some((name, value))) => Ok(arguments[name := value])
  }

  /** The argument loop as a left fold over the entries that stops at the first error. */
  function FoldEntries(entries: seq<Entry>): Result<map<string, string>, ParseError>
  {
    if entries == [] then Ok(map[])
    else
      match FoldEntries(entries[..|entries| - 1])
      case Err(e) => Err(e)
      case Ok(arguments) => ApplyEntry(arguments, entries[|entries| - 1])
  }

  /** The argument loop over `sections[1:]`. */
  function CollectArguments(sections: seq<string>): Result<map<string, string>, ParseError>
  {
    FoldEntries(Entries(sections))
  }

  /** Everything `parse` does once the markers are located: `between` is the
      text strictly between the begin marker and the end marker. */
  function ParseBlock(thought: string, between: string): Result<ParsedCall, ParseError>
  {
    var block := Strip(between);
    if block == [] then Err(EmptyBlock)
    else
      var sections := Split(block, ArgSep);
      var name := Strip(sections[0]);
      if name == [] then Err(MissingName)
      else
        match CollectArguments(sections[1..])
        case Err(e) => Err(e)
        case Ok(arguments) => Ok(ParsedCall(thought, name, arguments))
  }

  /** `ResponseParser.parse` as a function of the model's text. */
  function ParseCall(text: string): Result<ParsedCall, ParseError>
  {
    var e := RFind(text, EndCall);
    if e == -1 then Err(MissingEnd)
    else
      var b := RFindBefore(text, BeginCall, e);
      if b == -1 then Err(MissingBegin)
      else ParseBlock(Strip(text[..b]), text[b + |BeginCall|..e])
  }

  /** `ResponseParser.parse`: locate the markers, then collect the arguments one
      section at a time. */
  method Parse(text: string) returns (r: Result<ParsedCall, ParseError>)
    ensures r == ParseCall(text)
    ensures r.Ok? ==> r.value.name != [] && IsStripped(r.value.name) && !Contains(r.value.name, ArgSep)
  {
    var endIdx := RFind(text, EndCall);
    if endIdx == -1 {
      return Err(MissingEnd);
    }
    var beginIdx := RFindBefore(text, BeginCall, endIdx);
    if beginIdx == -1 {
      return Err(MissingBegin);
    }
    var thought := Strip(text[..beginIdx]);
    var between := text[beginIdx + |BeginCall|..endIdx];
    assert ParseCall(text) == ParseBlock(thought, between);
    var callBlock := Strip(between);
    if callBlock == [] {
      return Err(EmptyBlock);
    }
    var sections := Split(callBlock, ArgSep);
    var functionName := Strip(sections[0]);
    if functionName == [] {
      return Err(MissingName);
    }
    StripHasNoSeparator(sections[0], ArgSep);
    var collected := CollectLoop(sections[1..]);
    match collected {
      case Err(e) => return Err(e);
      case Ok(arguments) => return Ok(ParsedCall(thought, functionName, arguments));
    }
  }

  /** The `for section in sections[1:]` loop of `parse`, filling the argument
      dictionary one section at a time. */
  method CollectLoop(rest: seq<string>) returns (r: Result<map<string, string>, ParseError>)
    ensures r == CollectArguments(rest)
  {
    ghost var entries := Entries(rest);
    var arguments := map[];
    for i := 0 to |rest|
      invariant FoldEntries(entries[..i]) == Ok(arguments)
    {
      EntriesAt(rest, i);
      FoldStep(entries, i, arguments);
      var next := ApplyEntry(arguments, SectionEntry(rest[i]));
      if next.Err? {
        FoldStopsAtError(entries, i + 1);
        return Err(next.error);
      }
      arguments := next.value;
    }
    assert entries[..|rest|] == entries;
    return Ok(arguments);
  }

  // ---------------------------------------------------------------------
  // Lemmas

  /** Stripping creates no occurrence of a separator, because the result is a slice of the input. */
  lemma StripHasNoSeparator(s: string, sep: string)
    requires !Contains(s, sep)
    ensures !Contains(Strip(s), sep)
  {
    var r := Strip(s);
    StripIsSlice(s);
    var i, j :| StripsTo(s, r, i, j);
    forall k | 0 <= k <= |r| - |sep| ensures !OccursAt(r, sep, k) {
      if OccursAt(r, sep, k) {
        OccurrenceInSlice(s, i, j, sep, k);
      }
    }
  }

  /** One more round of the argument loop. */
  lemma FoldStep(entries: seq<Entry>, i: nat, arguments: map<string, string>)
    requires i < |entries| && FoldEntries(entries[..i]) == Ok(arguments)
    ensures FoldEntries(entries[..i + 1]) == ApplyEntry(arguments, entries[i])
  {
    assert entries[..i + 1][..i] == entries[..i];
  }

  /** Once a prefix of the entries fails, the whole fold fails with that error. */
  lemma {:induction false} FoldStopsAtError(entries: seq<Entry>, n: nat)
    requires n <= |entries| && FoldEntries(entries[..n]).Err?
    ensures FoldEntries(entries) == FoldEntries(entries[..n])
    decreases |entries| - n
  {
    if n == |entries| {
      assert entries[..n] == entries;
    } else {
      assert entries[..n + 1][..n] == entries[..n];
      FoldStopsAtError(entries, n + 1);
    }
  }

  /** `parse` fails with "Missing END_FUNCTION_CALL marker." exactly when the text has no end marker. */
  lemma ParseMissingEnd(text: string)
    ensures ParseCall(text) == Err(MissingEnd) <==> !Contains(text, EndCall)
  {
    if Contains(text, EndCall) {
      var e := RFind(text, EndCall);
      var b := RFindBefore(text, BeginCall, e);
      if b != -1 {
        ParseBlockError(Strip(text[..b]), text[b + |BeginCall|..e]);
      }
    }
  }

  /** `ParseBlock` never reports a missing marker. */
  lemma ParseBlockError(thought: string, between: string)
    ensures ParseBlock(thought, between) != Err(MissingEnd)
    ensures ParseBlock(thought, between) != Err(MissingBegin)
  {
    var block := Strip(between);
    if block != [] {
      var sections := Split(block, ArgSep);
      if Strip(sections[0]) != [] {
        CollectErrorKinds(sections[1..]);
      }
    }
  }

  /** The argument loop only raises the two section errors. */
  lemma CollectErrorKinds(sections: seq<string>)
    ensures CollectArguments(sections).Err? ==>
      CollectArguments(sections).error == MissingValueSeparator
      || CollectArguments(sections).error == EmptyArgumentName
  {
    var entries := Entries(sections);
    FoldFailsAtFirstError(entries);
    if FoldEntries(entries).Err? {
      var i :| 0 <= i < |entries| && entries[i] == Err(FoldEntries(entries).error);
      EntriesAt(sections, i);
      SectionErrorKinds(sections[i]);
    }
  }

  lemma SectionErrorKinds(section: string)
    ensures SectionEntry(section).Err? ==>
      SectionEntry(section).error == MissingValueSeparator || SectionEntry(section).error == EmptyArgumentName
  {
  }

  /** `parse` fails with "Missing BEGIN_FUNCTION_CALL marker." exactly when there is
      an end marker but no begin marker lies wholly before the last one. */
  lemma ParseMissingBegin(text: string)
    ensures ParseCall(text) == Err(MissingBegin) <==>
      exists e :: IsLast(text, EndCall, e)
        && forall i :: OccursAt(text, BeginCall, i) ==> i + |BeginCall| > e
  {
    var e := RFind(text, EndCall);
    if e == -1 {
      assert ParseCall(text) == Err(MissingEnd);
      assert !Contains(text, EndCall);
    } else {
      assert IsLast(text, EndCall, e);
      forall e' | IsLast(text, EndCall, e') ensures e' == e { }
      var b := RFindBefore(text, BeginCall, e);
      if b == -1 {
        assert ParseCall(text) == Err(MissingBegin);
      } else {
        assert ParseCall(text) == ParseBlock(Strip(text[..b]), text[b + |BeginCall|..e]);
        ParseBlockError(Strip(text[..b]), text[b + |BeginCall|..e]);
        assert OccursAt(text, BeginCall, b) && b + |BeginCall| <= e;
      }
    }
  }

  /** The last-match rule: whenever `b` and `e` are the markers `parse` anchors on,
      the result depends only on the text strictly between them, and the thought
      is everything before `b` (earlier call blocks included), trimmed. */
  lemma ParseUsesLastBlock(text: string, b: int, e: int)
    requires CallBlockAt(text, b, e)
    ensures ParseCall(text) == ParseBlock(Strip(text[..b]), text[b + |BeginCall|..e])
  {
    var e' := RFind(text, EndCall);
    assert e' == e;
    var b' := RFindBefore(text, BeginCall, e);
    assert b' == b;
  }

  /** `rfind(sub, 0, end)` only looks at `s[..end]`. */
  lemma {:induction false} RFindBeforeLooksAtPrefix(s: string, t: string, sub: string, end: nat)
    requires end <= |s| && end <= |t| && s[..end] == t[..end]
    ensures RFindBefore(s, sub, end) == RFindBefore(t, sub, end)
  {
    if end >= |sub| {
      assert s[end - |sub|..end] == s[..end][end - |sub|..] == t[end - |sub|..end];
      if end > 0 {
        assert s[..end - 1] == s[..end][..end - 1];
        assert t[..end - 1] == t[..end][..end - 1];
        RFindBeforeLooksAtPrefix(s, t, sub, end - 1);
      }
    }
  }

  /** Text after the last end marker is ignored. */
  lemma ParseIgnoresTrailingText(text: string, e: int)
    requires IsLast(text, EndCall, e)
    ensures ParseCall(text) == ParseCall(text[..e + |EndCall|])
  {
    var cut := text[..e + |EndCall|];
    assert OccursAt(cut, EndCall, e) by {
      assert cut[e..e + |EndCall|] == text[e..e + |EndCall|];
    }
    assert RFind(cut, EndCall) == e;
    assert RFind(text, EndCall) == e;
    assert cut[..e] == text[..e];
    RFindBeforeLooksAtPrefix(text, cut, BeginCall, e);
    var b := RFindBefore(text, BeginCall, e);
    if b != -1 {
      var x1, x2 := text[b + |BeginCall|..e], cut[b + |BeginCall|..e];
      assert text[..b] == text[..e][..b] == cut[..b];
      assert x1 == text[..e][b + |BeginCall|..] == x2;
      assert ParseCall(text) == ParseBlock(Strip(text[..b]), x1);
      assert ParseCall(cut) == ParseBlock(Strip(cut[..b]), x2);
    }
  }

  /** "Empty function call block." exactly when the text between the anchored
      markers is whitespace. */
  lemma ParseEmptyBlock(text: string, b: int, e: int)
    requires CallBlockAt(text, b, e)
    ensures ParseCall(text) == Err(EmptyBlock) <==> AllSpace(text[b + |BeginCall|..e])
  {
    ParseUsesLastBlock(text, b, e);
    var block := Strip(text[b + |BeginCall|..e]);
    if block != [] {
      var sections := Split(block, ArgSep);
      if Strip(sections[0]) != [] {
        CollectErrorKinds(sections[1..]);
      }
    }
  }

  /** The function name is the call block up to its first `----ARG----` (or the
      whole block when there is none), trimmed; "Function name is missing." exactly
      when that is blank. */
  lemma ParseBlockName(thought: string, between: string)
    requires !AllSpace(between)
    ensures var block := Strip(between);
      var head := if Contains(block, ArgSep) then block[..Find(block, ArgSep)] else block;
      && (ParseBlock(thought, between) == Err(MissingName) <==> AllSpace(head))
      && (ParseBlock(thought, between).Ok? ==> ParseBlock(thought, between).value.name == Strip(head))
  {
    var block := Strip(between);
    var head := if Contains(block, ArgSep) then block[..Find(block, ArgSep)] else block;
    var sections := Split(block, ArgSep);
    assert sections[0] == head;
    CollectErrorKinds(sections[1..]);
    if AllSpace(head) {
      assert ParseBlock(thought, between) == Err(MissingName);
    } else {
      assert ParseBlock(thought, between) != Err(MissingName);
    }
  }

  /** A rendered argument section `\n name \n ----VALUE---- rest` yields the name
      and the trimmed rest, even when the rest itself contains `----VALUE----`:
      the split happens at the first separator. */
  lemma SectionOfRendered(name: string, rest: string)
    requires name != [] && IsStripped(name) && !Contains(name, ValueSep)
    ensures SectionEntry("\n" + name + "\n" + ValueSep + rest) == Ok(Some((name, Strip(rest))))
  {
    var section := "\n" + name + "\n" + ValueSep + rest;
    var a := "\n" + name;
    assert section == a + "\n" + (ValueSep + rest);
    var p := |name| + 2;
    assert OccursAt(section, ValueSep, p) by {
      assert section[p..p + |ValueSep|] == ValueSep;
    }
    assert HasNoNewline(ValueSep);
    forall j | 0 <= j < p && OccursAt(section, ValueSep, j) ensures false {
      OccurrenceAroundNewline(a, ValueSep + rest, ValueSep, j);
      assert a == "" + "\n" + name;
      OccurrenceAroundNewline("", name, ValueSep, j);
    }
    assert Find(section, ValueSep) == p;
    assert section[..p] == "\n" + name + "\n";
    assert section[p + |ValueSep|..] == rest;
    StripPadded("\n", name, "\n");
    assert !AllSpace(section) by {
      assert section[1] == name[0];
    }
  }

  /** `entries[i]` carries the pair (`name`, `value`). */
  predicate Carries(entries: seq<Entry>, i: int, name: string)
  {
    0 <= i < |entries| && entries[i].Ok? && entries[i].value.Some? && entries[i].value.value.0 == name
  }

  /** When the argument loop succeeds, every key comes from some entry, every
      entry's name is a key, and a repeated name keeps the value of its last entry. */
  lemma {:induction false} FoldKeysAndLastWins(entries: seq<Entry>)
    requires FoldEntries(entries).Ok?
    ensures var args := FoldEntries(entries).value;
      && (forall k :: k in args ==> exists i :: Carries(entries, i, k) && entries[i].value.value.1 == args[k])
      && (forall i, k :: Carries(entries, i, k) ==> k in args)
      && (forall i, k :: Carries(entries, i, k) && (forall j :: i < j ==> !Carries(entries, j, k))
            ==> args[k] == entries[i].value.value.1)
    decreases |entries|
  {
    if entries != [] {
      var n := |entries| - 1;
      var init := entries[..n];
      FoldKeysAndLastWins(init);
      var prev := FoldEntries(init).value;
      var args := FoldEntries(entries).value;
      forall i, k | Carries(init, i, k) ensures Carries(entries, i, k) { }
      forall i, k | Carries(entries, i, k) && i < n ensures Carries(init, i, k) { }
      forall k | k in args
        ensures exists i :: Carries(entries, i, k) && entries[i].value.value.1 == args[k]
      {
        if !Carries(entries, n, k) {
          var i :| Carries(init, i, k) && init[i].value.value.1 == prev[k];
          assert Carries(entries, i, k);
        }
      }
      forall i, k | Carries(entries, i, k) && (forall j :: i < j ==> !Carries(entries, j, k))
        ensures args[k] == entries[i].value.value.1
      {
        if i < n {
          assert !Carries(entries, n, k);
          assert Carries(init, i, k) && forall j :: i < j ==> !Carries(init, j, k);
          assert args[k] == prev[k];
        }
      }
    }
  }

  /** The argument loop fails exactly when some entry is an error, and then with
      the error of the first one. */
  lemma {:induction false} FoldFailsAtFirstError(entries: seq<Entry>)
    ensures FoldEntries(entries).Err? <==> exists i :: 0 <= i < |entries| && entries[i].Err?
    ensures FoldEntries(entries).Err? ==>
      exists i :: 0 <= i < |entries| && entries[i] == Err(FoldEntries(entries).error)
        && forall j :: 0 <= j < i ==> entries[j].Ok?
    decreases |entries|
  {
    if entries != [] {
      var n := |entries| - 1;
      var init := entries[..n];
      FoldFailsAtFirstError(init);
      if FoldEntries(init).Err? {
        var i :| 0 <= i < |init| && init[i] == Err(FoldEntries(init).error)
          && forall j :: 0 <= j < i ==> init[j].Ok?;
        assert entries[i] == Err(FoldEntries(entries).error);
      } else if entries[n].Err? {
        assert forall j :: 0 <= j < n ==> entries[j].Ok?;
      }
    }
  }
}
