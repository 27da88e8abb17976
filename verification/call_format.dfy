/**
 * The call grammar read in the other direction: rendering a call in the
 * layout of the template (`BEGIN\nname\n(ARG\nk\nVALUE\nv\n)*END`) and the
 * round trip `parse(render(call))`.
 */
module CallFormat {
  import opened Text
  import opened Results
  import opened ResponseParser

  /** Free of all four delimiters. */
  predicate Clean(s: string)
  {
    !Contains(s, BeginCall) && !Contains(s, EndCall) && !Contains(s, ArgSep) && !Contains(s, ValueSep)
  }

  /** A function or argument name the grammar can carry unchanged. */
  predicate ValidName(s: string)
  {
    s != [] && IsStripped(s) && Clean(s)
  }

  /** An argument (name, value) the grammar can carry unchanged. */
  predicate ValidArg(arg: (string, string))
  {
    ValidName(arg.0) && IsStripped(arg.1) && Clean(arg.1)
  }

  predicate ValidArgs(args: seq<(string, string)>)
  {
    forall i :: 0 <= i < |args| ==> ValidArg(args[i])
  }

  /** An argument's name line and the value marker: `\nname\n----VALUE----`. */
  function SectionHead(arg: (string, string)): string
  {
    "\n" + arg.0 + "\n" + ValueSep
  }

  /** One argument after its `----ARG----`: `\nname\n----VALUE----\nvalue`. */
  function Section(arg: (string, string)): string
  {
    SectionHead(arg) + "\n" + arg.1
  }

  /** The arguments of a call, each introduced by `\n----ARG----`. */
  function ArgsText(args: seq<(string, string)>): string
  {
    if args == [] then "" else "\n" + ArgSep + Section(args[0]) + ArgsText(args[1..])
  }

  /** The call block between the markers: the name, then the arguments. */
  function CallBody(name: string, args: seq<(string, string)>): string
  {
    name + ArgsText(args)
  }

  /** A call laid out as in the template, after the model's thought. */
  function RenderCall(thought: string, name: string, args: seq<(string, string)>): string
  {
    thought + "\n" + BeginCall + "\n" + CallBody(name, args) + "\n" + EndCall
  }

  /** The dictionary the arguments build when assigned in order: a repeated name keeps its last value. */
  function ToMap(args: seq<(string, string)>): map<string, string>
  {
    if args == [] then map[] else ToMap(args[..|args| - 1])[args[|args| - 1].0 := args[|args| - 1].1]
  }

  // ---------------------------------------------------------------------
  // Facts about the delimiters

  lemma DelimiterFacts()
    ensures HasNoNewline(BeginCall) && HasNoNewline(EndCall) && HasNoNewline(ArgSep) && HasNoNewline(ValueSep)
    ensures !Contains(ArgSep, BeginCall) && !Contains(ValueSep, BeginCall)
    ensures !Contains(ValueSep, ArgSep) && !Contains(ValueSep, EndCall) && !Contains(ArgSep, EndCall)
    ensures !Contains(ArgSep, ValueSep)
    ensures |ValueSep| > 0 && !IsSpace(ValueSep[|ValueSep| - 1])
  {
    ShortHasNoOccurrence(ArgSep, BeginCall);
    ShortHasNoOccurrence(ValueSep, BeginCall);
    ShortHasNoOccurrence(ValueSep, EndCall);
    ShortHasNoOccurrence(ArgSep, EndCall);
    ShortHasNoOccurrence(ArgSep, ValueSep);
    forall i | 0 <= i <= |ValueSep| - |ArgSep| ensures !OccursAt(ValueSep, ArgSep, i) {
      assert ValueSep[i..i + |ArgSep|][4] != ArgSep[4] || ValueSep[i..i + |ArgSep|][5] != ArgSep[5];
    }
  }

  // ---------------------------------------------------------------------
  // The rendered text contains no stray marker

  lemma {:induction false} ArgsTextHasNoOccurrence(x: string, args: seq<(string, string)>, sub: string)
    requires HasNoNewline(sub) && !Contains(x, sub) && !Contains(ArgSep, sub) && !Contains(ValueSep, sub)
    requires forall i :: 0 <= i < |args| ==> !Contains(args[i].0, sub) && !Contains(args[i].1, sub)
    ensures !Contains(x + ArgsText(args), sub)
    decreases |args|
  {
    if args == [] {
      assert x + ArgsText(args) == x;
    } else {
      var x4 := x + "\n" + ArgSep + Section(args[0]);
      ArgsTextUnfold(x, args);
      FirstArgClean(x, args[0], sub);
      forall i | 0 <= i < |args[1..]| ensures !Contains(args[1..][i].0, sub) && !Contains(args[1..][i].1, sub) {
        assert args[1..][i] == args[i + 1];
      }
      ArgsTextHasNoOccurrence(x4, args[1..], sub);
    }
  }

  /** `ArgsText` peels off its first argument. */
  lemma ArgsTextUnfold(x: string, args: seq<(string, string)>)
    requires args != []
    ensures x + ArgsText(args) == (x + "\n" + ArgSep + Section(args[0])) + ArgsText(args[1..])
  {
    var first, rest := "\n" + ArgSep + Section(args[0]), ArgsText(args[1..]);
    assert ArgsText(args) == first + rest;
    assert x + (first + rest) == (x + first) + rest;
  }

  /** The first argument glued to `x` with its separator adds no occurrence of `sub`. */
  lemma FirstArgClean(x: string, arg: (string, string), sub: string)
    requires HasNoNewline(sub) && !Contains(x, sub) && !Contains(ArgSep, sub) && !Contains(ValueSep, sub)
    requires !Contains(arg.0, sub) && !Contains(arg.1, sub)
    ensures !Contains(x + "\n" + ArgSep + Section(arg), sub)
  {
    var x1 := x + "\n" + ArgSep;
    var x2 := x1 + "\n" + arg.0;
    var x3 := x2 + "\n" + ValueSep;
    assert x1 + Section(arg) == x3 + "\n" + arg.1;
    NewlineJoinHasNoOccurrence(x, ArgSep, sub);
    NewlineJoinHasNoOccurrence(x1, arg.0, sub);
    NewlineJoinHasNoOccurrence(x2, ValueSep, sub);
    NewlineJoinHasNoOccurrence(x3, arg.1, sub);
  }

  // ---------------------------------------------------------------------
  // How the call block splits into sections

  /** The last section once `strip()` has cut the whitespace after the value. */
  function LastSection(arg: (string, string)): string
  {
    SectionHead(arg) + TrimRight("\n" + arg.1)
  }

  /** The sections `split(----ARG----)` yields after the name, for non-empty `args`. */
  function Sections(args: seq<(string, string)>): (r: seq<string>)
    requires args != []
    ensures |r| == |args|
  {
    if |args| == 1 then [LastSection(args[0])]
    else [Section(args[0]) + "\n"] + Sections(args[1..])
  }

  /** Everything after the first `----ARG----` of a call with non-empty `args`. */
  function Tail(args: seq<(string, string)>): string
    requires args != []
  {
    Section(args[0]) + ArgsText(args[1..])
  }

  /** Splitting after a clean, newline-terminated piece peels that piece off. */
  lemma SplitPeel(p: string, x: string, sep: string)
    requires sep != [] && HasNoNewline(sep) && !Contains(p, sep) && p != [] && p[|p| - 1] == '\n'
    ensures Split(p + sep + x, sep) == [p] + Split(x, sep)
  {
    var s := p + sep + x;
    assert OccursAt(s, sep, |p|) by {
      assert s[|p|..|p| + |sep|] == sep;
    }
    forall j | 0 <= j < |p| && OccursAt(s, sep, j) ensures false {
      var q := p[..|p| - 1];
      assert s == q + "\n" + (sep + x);
      OccurrenceAroundNewline(q, sep + x, sep, j);
      OccurrenceInLonger(q, p, sep, j);
    }
    assert Find(s, sep) == |p|;
    assert s[..|p|] == p;
    assert s[|p| + |sep|..] == x;
  }

  /** A section's head carries no argument separator. */
  lemma SectionHeadClean(arg: (string, string))
    requires ValidArg(arg)
    ensures !Contains(SectionHead(arg), ArgSep)
  {
    DelimiterFacts();
    NewlineJoinHasNoOccurrence("", arg.0, ArgSep);
    assert "" + "\n" + arg.0 == "\n" + arg.0;
    NewlineJoinHasNoOccurrence("\n" + arg.0, ValueSep, ArgSep);
  }

  /** The last section: what `strip()` leaves of it, that `split` keeps it
      whole, and the pair it yields. */
  lemma LastSectionFacts(arg: (string, string))
    requires ValidArg(arg)
    ensures TrimRight(Section(arg)) == LastSection(arg)
    ensures !Contains(LastSection(arg), ArgSep)
    ensures SectionEntry(LastSection(arg)) == Ok(Some(arg))
  {
    DelimiterFacts();
    var head, v := SectionHead(arg), arg.1;
    TrimRightNewlineStripped(v);
    assert TrimRight(Section(arg)) == LastSection(arg) by {
      assert SectionHead(arg)[|head| - 1] == ValueSep[|ValueSep| - 1];
      TrimRightAppend(head, "\n" + v);
    }
    assert !Contains(LastSection(arg), ArgSep) by {
      SectionHeadClean(arg);
      if v == [] {
        assert LastSection(arg) == head;
      } else {
        NewlineJoinHasNoOccurrence(head, v, ArgSep);
      }
    }
    LastSectionEntry(arg);
  }

  lemma LastSectionEntry(arg: (string, string))
    requires ValidArg(arg)
    ensures SectionEntry(LastSection(arg)) == Ok(Some(arg))
  {
    var v := arg.1;
    var rest := TrimRight("\n" + v);
    TrimRightNewlineStripped(v);
    assert LastSection(arg) == "\n" + arg.0 + "\n" + ValueSep + rest;
    assert Strip(rest) == v by {
      if v != [] {
        StripPadded("\n", v, "");
        assert "\n" + v + "" == "\n" + v;
      }
    }
    assert SectionEntry(LastSection(arg)) == Ok(Some((arg.0, Strip(rest)))) by {
      SectionOfRendered(arg.0, rest);
    }
  }

  /** A section followed by another: it ends in the newline before the next
      separator, carries no separator itself, and yields its pair. */
  lemma MiddleSectionFacts(arg: (string, string))
    requires ValidArg(arg)
    ensures !Contains(Section(arg) + "\n", ArgSep)
    ensures SectionEntry(Section(arg) + "\n") == Ok(Some(arg))
  {
    MiddleSectionClean(arg);
    MiddleSectionEntry(arg);
  }

  lemma MiddleSectionClean(arg: (string, string))
    requires ValidArg(arg)
    ensures !Contains(Section(arg) + "\n", ArgSep)
  {
    DelimiterFacts();
    var head, v := SectionHead(arg), arg.1;
    SectionHeadClean(arg);
    NewlineJoinHasNoOccurrence(head, v, ArgSep);
    NewlineJoinHasNoOccurrence(head + "\n" + v, "", ArgSep);
    assert Section(arg) + "\n" == head + "\n" + v + "\n" + "";
  }

  lemma MiddleSectionEntry(arg: (string, string))
    requires ValidArg(arg)
    ensures SectionEntry(Section(arg) + "\n") == Ok(Some(arg))
  {
    var section, rest := Section(arg) + "\n", "\n" + arg.1 + "\n";
    assert section == "\n" + arg.0 + "\n" + ValueSep + rest;
    assert Strip(rest) == arg.1 by {
      StripPadded("\n", arg.1, "\n");
    }
    assert SectionEntry(section) == Ok(Some((arg.0, Strip(rest)))) by {
      SectionOfRendered(arg.0, rest);
    }
  }

  /** A tail whose first argument name is non-empty starts with a non-space. */
  lemma TailNotSpace(args: seq<(string, string)>)
    requires args != [] && ValidArgs(args)
    ensures |Tail(args)| > 1 && !IsSpace(Tail(args)[1]) && !AllSpace(Tail(args))
  {
    assert Tail(args)[1] == args[0].0[0];
  }

  /** `Tail` of a call with further arguments is the first section, a separator
      and the tail of the rest. */
  lemma TailUnfold(args: seq<(string, string)>)
    requires |args| > 1
    ensures Tail(args) == (Section(args[0]) + "\n") + ArgSep + Tail(args[1..])
  {
    var rest := args[1..];
    assert ArgsText(rest) == "\n" + ArgSep + Section(rest[0]) + ArgsText(rest[1..]);
  }

  /** `strip()` then `split` of the arguments part gives `Sections(args)`. */
  lemma {:induction false} SplitTail(args: seq<(string, string)>)
    requires args != [] && ValidArgs(args)
    ensures Split(TrimRight(Tail(args)), ArgSep) == Sections(args)
    decreases |args|
  {
    DelimiterFacts();
    if |args| == 1 {
      assert Tail(args) == Section(args[0]) + "";
      assert Tail(args) == Section(args[0]);
      LastSectionFacts(args[0]);
    } else {
      var rest := args[1..];
      var p := Section(args[0]) + "\n";
      MiddleSectionFacts(args[0]);
      TailUnfold(args);
      assert ValidArgs(rest) by {
        assert forall i :: 0 <= i < |rest| ==> rest[i] == args[i + 1];
      }
      TailNotSpace(rest);
      TrimRightAppend(p + ArgSep, Tail(rest));
      SplitPeel(p, TrimRight(Tail(rest)), ArgSep);
      SplitTail(rest);
    }
  }

  /** Each section yields its own argument. */
  lemma {:induction false} SectionsEntries(args: seq<(string, string)>, i: int)
    requires args != [] && ValidArgs(args) && 0 <= i < |args|
    ensures SectionEntry(Sections(args)[i]) == Ok(Some(args[i]))
    decreases |args|
  {
    if |args| == 1 {
      LastSectionFacts(args[0]);
    } else if i == 0 {
      MiddleSectionFacts(args[0]);
    } else {
      var rest := args[1..];
      assert ValidArgs(rest) by {
        assert forall j :: 0 <= j < |rest| ==> rest[j] == args[j + 1];
      }
      var j := i - 1;
      assert Sections(args)[i] == Sections(rest)[j] && args[i] == rest[j];
      SectionsEntries(rest, j);
    }
  }

  /** Folding entries that each carry `args[i]` builds `ToMap(args)`. */
  lemma {:induction false} FoldOfPairs(entries: seq<Entry>, args: seq<(string, string)>)
    requires |entries| == |args| && forall i :: 0 <= i < |args| ==> entries[i] == Ok(Some(args[i]))
    ensures FoldEntries(entries) == Ok(ToMap(args))
    decreases |args|
  {
    if args != [] {
      var n := |args| - 1;
      FoldOfPairs(entries[..n], args[..n]);
    }
  }

  /** The argument loop over the rendered sections builds `ToMap(args)`. */
  lemma CollectRendered(args: seq<(string, string)>)
    requires args != [] && ValidArgs(args)
    ensures CollectArguments(Sections(args)) == Ok(ToMap(args))
  {
    var secs := Sections(args);
    forall i | 0 <= i < |args| ensures Entries(secs)[i] == Ok(Some(args[i])) {
      SectionsEntries(args, i);
      EntriesAt(secs, i);
    }
    FoldOfPairs(Entries(secs), args);
  }

  lemma Regroup(n: string, a: string, x: string, y: string)
    ensures n + ("\n" + a + x + y) == (n + "\n") + a + (x + y)
  {
  }

  /** The stripped call block splits into the name section and `Sections(args)`. */
  lemma SplitRendered(name: string, args: seq<(string, string)>)
    requires ValidName(name) && ValidArgs(args)
    ensures var sections := Split(TrimRight(CallBody(name, args)), ArgSep);
      sections[0] == (if args == [] then name else name + "\n")
      && sections[1..] == (if args == [] then [] else Sections(args))
  {
    DelimiterFacts();
    var body := CallBody(name, args);
    if args == [] {
      assert body == name;
      assert TrimRight(name) == name;
    } else {
      var p := name + "\n";
      assert body == p + ArgSep + Tail(args) by {
        assert ArgsText(args) == "\n" + ArgSep + Section(args[0]) + ArgsText(args[1..]);
        Regroup(name, ArgSep, Section(args[0]), ArgsText(args[1..]));
      }
      TailNotSpace(args);
      TrimRightAppend(p + ArgSep, Tail(args));
      NewlineJoinHasNoOccurrence(name, "", ArgSep);
      assert name + "\n" + "" == p;
      SplitPeel(p, TrimRight(Tail(args)), ArgSep);
      SplitTail(args);
    }
  }

  /** The text between the markers parses to the name and the arguments. */
  lemma ParseRenderedBlock(thought: string, name: string, args: seq<(string, string)>)
    requires ValidName(name) && ValidArgs(args)
    ensures ParseBlock(thought, "\n" + CallBody(name, args) + "\n") == Ok(ParsedCall(thought, name, ToMap(args)))
  {
    var body := CallBody(name, args);
    assert Strip("\n" + body + "\n") == TrimRight(body) != [] by {
      assert body[0] == name[0];
      StripNewlinePadded(body);
    }
    RenderedSections(name, args);
  }

  /** The first section trims to the name and the others build the dictionary. */
  lemma RenderedSections(name: string, args: seq<(string, string)>)
    requires ValidName(name) && ValidArgs(args)
    ensures var sections := Split(TrimRight(CallBody(name, args)), ArgSep);
      Strip(sections[0]) == name && CollectArguments(sections[1..]) == Ok(ToMap(args))
  {
    var sections := Split(TrimRight(CallBody(name, args)), ArgSep);
    SplitRendered(name, args);
    RenderedPieces(name, args, sections[0], sections[1..]);
  }

  /** The pieces the rendered body splits into: the name line and the sections. */
  lemma RenderedPieces(name: string, args: seq<(string, string)>, first: string, rest: seq<string>)
    requires ValidName(name) && ValidArgs(args)
    requires first == (if args == [] then name else name + "\n")
    requires rest == (if args == [] then [] else Sections(args))
    ensures Strip(first) == name && CollectArguments(rest) == Ok(ToMap(args))
  {
    if args == [] {
      StripPadded("", name, "");
      assert "" + name + "" == name;
      assert Entries([]) == [];
    } else {
      StripPadded("", name, "\n");
      assert "" + name + "\n" == name + "\n";
      CollectRendered(args);
    }
  }

  /** The slices of a text laid out as `t \n B \n body \n E`. */
  lemma Layout(t: string, begin: string, body: string, end: string)
    ensures var s := t + "\n" + begin + "\n" + body + "\n" + end;
      var b, e := |t| + 1, |s| - |end|;
      s[..b] == t + "\n" && s[b..b + |begin|] == begin && s[b + |begin|..e] == "\n" + body + "\n"
      && s[e..] == end && s == (t + "\n" + begin) + "\n" + (body + "\n" + end)
  {
  }

  /** In a rendered call the end marker is the last one, and the begin marker
      after the thought is the last one before it. */
  lemma MarkerPositions(t: string, body: string)
    requires !Contains(body, BeginCall)
    ensures var s := t + "\n" + BeginCall + "\n" + body + "\n" + EndCall;
      RFind(s, EndCall) == |s| - |EndCall| && RFindBefore(s, BeginCall, |s| - |EndCall|) == |t| + 1
  {
    DelimiterFacts();
    var s := t + "\n" + BeginCall + "\n" + body + "\n" + EndCall;
    var a := t + "\n" + BeginCall;
    var b, e := |t| + 1, |s| - |EndCall|;
    Layout(t, BeginCall, body, EndCall);
    assert OccursAt(s, EndCall, e) by {
      assert s[e..e + |EndCall|] == s[e..];
    }
    assert OccursAt(s, BeginCall, b);
    forall j | b < j && j + |BeginCall| <= e && OccursAt(s, BeginCall, j) ensures false {
      OccurrenceAroundNewline(a, body + "\n" + EndCall, BeginCall, j);
      OccurrenceAroundNewline(body, EndCall, BeginCall, j - |a| - 1);
    }
  }

  /** Round trip: parsing a rendered call gives back its name and the argument
      dictionary, and the thought trimmed, for any thought at all. */
  lemma RoundTrip(thought: string, name: string, args: seq<(string, string)>)
    requires ValidName(name) && ValidArgs(args)
    ensures ParseCall(RenderCall(thought, name, args)) == Ok(ParsedCall(Strip(thought), name, ToMap(args)))
  {
    var body := CallBody(name, args);
    assert !Contains(body, BeginCall) by {
      DelimiterFacts();
      ArgsTextHasNoOccurrence(name, args, BeginCall);
    }
    LocateBlock(thought, body);
    ParseRenderedBlock(Strip(thought), name, args);
  }

  /** With no begin marker in the body, the parser finds the block that the
      rendering put after the thought. */
  lemma LocateBlock(thought: string, body: string)
    requires !Contains(body, BeginCall)
    ensures ParseCall(thought + "\n" + BeginCall + "\n" + body + "\n" + EndCall)
            == ParseBlock(Strip(thought), "\n" + body + "\n")
  {
    var text := thought + "\n" + BeginCall + "\n" + body + "\n" + EndCall;
    var b, e := |thought| + 1, |text| - |EndCall|;
    MarkerPositions(thought, body);
    Layout(thought, BeginCall, body, EndCall);
    assert Strip(text[..b]) == Strip(thought) by {
      TrimRightSpaceSuffix(thought, "\n");
    }
  }

  // ---------------------------------------------------------------------
  // The dictionary of a rendered call

  /** The keys are exactly the rendered names; a name's value is that of its
      last occurrence, so with distinct names every pair comes back unchanged. */
  lemma {:induction false} ToMapContents(args: seq<(string, string)>)
    ensures forall k :: k in ToMap(args) <==> exists i :: 0 <= i < |args| && args[i].0 == k
    ensures forall i :: (0 <= i < |args| && (forall j :: i < j < |args| ==> args[j].0 != args[i].0))
                        ==> ToMap(args)[args[i].0] == args[i].1
    decreases |args|
  {
    if args != [] {
      var n := |args| - 1;
      var init := args[..n];
      ToMapContents(init);
      forall k | k in ToMap(args) ensures exists i :: 0 <= i < |args| && args[i].0 == k {
        if k != args[n].0 {
          var i :| 0 <= i < |init| && init[i].0 == k;
          assert args[i].0 == k;
        }
      }
      forall k | exists i :: 0 <= i < |args| && args[i].0 == k ensures k in ToMap(args) {
        var i :| 0 <= i < |args| && args[i].0 == k;
        if i < n {
          assert init[i].0 == k;
        }
      }
    }
  }

  /** The last-match rule on two rendered calls: the later call supplies the
      name and arguments, and the earlier one ends up inside the thought. */
  lemma LastCallWins(t1: string, n1: string, a1: seq<(string, string)>,
                     t2: string, n2: string, a2: seq<(string, string)>)
    requires ValidName(n2) && ValidArgs(a2)
    ensures var first := RenderCall(t1, n1, a1);
      ParseCall(RenderCall(first + t2, n2, a2)) == Ok(ParsedCall(Strip(first + t2), n2, ToMap(a2)))
  {
    RoundTrip(RenderCall(t1, n1, a1) + t2, n2, a2);
  }

  /** A rendered `finish(result=...)` call parses back to the tool name and its
      single `result` argument. */
  lemma FinishRoundTrip(thought: string, result: string)
    requires IsStripped(result) && Clean(result)
    ensures ParseCall(RenderCall(thought, "finish", [("result", result)]))
            == Ok(ParsedCall(Strip(thought), "finish", map["result" := result]))
  {
    var args := [("result", result)];
    assert ValidName("finish") by {
      ShortHasNoOccurrence("finish", BeginCall);
      ShortHasNoOccurrence("finish", EndCall);
      ShortHasNoOccurrence("finish", ArgSep);
      ShortHasNoOccurrence("finish", ValueSep);
    }
    assert ValidName("result") by {
      ShortHasNoOccurrence("result", BeginCall);
      ShortHasNoOccurrence("result", EndCall);
      ShortHasNoOccurrence("result", ArgSep);
      ShortHasNoOccurrence("result", ValueSep);
    }
    assert ValidArgs(args);
    RoundTrip(thought, "finish", args);
    assert ToMap(args) == map["result" := result] by {
      assert args[..0] == [];
    }
  }
}
