/**
 * The handful of Python `str` operations the agent relies on, written out
 * over `seq<char>`: `strip()`, the `in` operator, `find`, `rfind(sub, 0, end)`,
 * `split(sep)` and the decimal rendering of a non-negative `int`.
 */
module Text {

  /** Python's `str.isspace()` for a single character. */
  predicate IsSpace(c: char)
  {
    c in {' ', '\t', '\n', '\r', '\U{000B}', '\U{000C}', '\U{001C}', '\U{001D}', '\U{001E}', '\U{001F}',
          '\U{0085}', '\U{00A0}', '\U{1680}', '\U{2028}', '\U{2029}', '\U{202F}', '\U{205F}', '\U{3000}'}
    || ('\U{2000}' <= c <= '\U{200A}')
  }

  predicate AllSpace(s: string)
  {
    forall i :: 0 <= i < |s| ==> IsSpace(s[i])
  }

  /** Neither starts nor ends with whitespace (the empty string counts). */
  predicate IsStripped(s: string)
  {
    s == [] || (!IsSpace(s[0]) && !IsSpace(s[|s| - 1]))
  }

  /** `s.rstrip()`: the longest prefix of `s` not ending in whitespace. */
  function TrimRight(s: string): (r: string)
    ensures |r| <= |s| && r == s[..|r|]
    ensures AllSpace(s[|r|..])
    ensures r == [] || !IsSpace(r[|r| - 1])
  {
    if |s| > 0 && IsSpace(s[|s| - 1]) then
      var r := TrimRight(s[..|s| - 1]);
      AllSpaceSnoc(s, |r|);
      r
    else s
  }

  lemma AllSpaceSnoc(s: string, k: int)
    requires 0 <= k < |s| && AllSpace(s[..|s| - 1][k..]) && IsSpace(s[|s| - 1])
    ensures AllSpace(s[k..])
  {
    forall i | 0 <= i < |s| - k ensures IsSpace(s[k..][i]) {
      if k + i < |s| - 1 {
        assert s[k..][i] == s[..|s| - 1][k..][i];
      }
    }
  }

  /** `s.lstrip()`: the longest suffix of `s` not starting with whitespace. */
  function TrimLeft(s: string): (r: string)
    ensures |r| <= |s| && r == s[|s| - |r|..]
    ensures r == [] || !IsSpace(r[0])
  {
    if |s| > 0 && IsSpace(s[0]) then TrimLeft(s[1..]) else s
  }

  /** What `lstrip()` removes is whitespace. */
  lemma {:induction false} TrimLeftCut(s: string)
    ensures AllSpace(s[..|s| - |TrimLeft(s)|])
    decreases |s|
  {
    if |s| > 0 && IsSpace(s[0]) {
      TrimLeftCut(s[1..]);
      AllSpaceCons(s, |s| - |TrimLeft(s[1..])|, |s[1..]| - |TrimLeft(s[1..])|);
    }
  }

  lemma AllSpaceCons(s: string, k: int, j: int)
    requires 0 < k <= |s| && j == k - 1 && IsSpace(s[0]) && AllSpace(s[1..][..j])
    ensures AllSpace(s[..k])
  {
    forall i | 0 < i < k ensures IsSpace(s[..k][i]) {
      assert s[..k][i] == s[1..][..j][i - 1];
    }
  }

  /** `r` is `s` with the whitespace `s[..i]` and `s[j..]` cut off. */
  predicate StripsTo(s: string, r: string, i: int, j: int)
  {
    0 <= i <= j <= |s| && r == s[i..j] && AllSpace(s[..i]) && AllSpace(s[j..])
  }

  /** `s.strip()` */
  function Strip(s: string): (r: string)
    ensures IsStripped(r)
    ensures r == [] <==> AllSpace(s)
  {
    StripCut(s);
    TrimLeft(TrimRight(s))
  }

  /** `s.strip()` is the slice of `s` left once the whitespace on both ends is cut off. */
  lemma StripIsSlice(s: string)
    ensures exists i, j :: StripsTo(s, Strip(s), i, j)
  {
    StripCut(s);
    var right := TrimRight(s);
    assert StripsTo(s, Strip(s), |right| - |Strip(s)|, |right|);
  }

  lemma StripCut(s: string)
    ensures var right := TrimRight(s); var r := TrimLeft(right);
      StripsTo(s, r, |right| - |r|, |right|) && (r == [] <==> AllSpace(s))
  {
    var right := TrimRight(s);
    var r := TrimLeft(right);
    TrimLeftCut(right);
    TrimRightEmpty(s);
    TrimLeftEmpty(right);
    StripCombine(s, right, r);
  }

  /** The facts about `rstrip` and `lstrip` that make their composition a strip. */
  lemma StripCombine(s: string, right: string, r: string)
    requires |right| <= |s| && right == s[..|right|] && AllSpace(s[|right|..])
    requires right == [] || !IsSpace(right[|right| - 1])
    requires |r| <= |right| && r == right[|right| - |r|..] && AllSpace(right[..|right| - |r|])
    requires right == [] <==> AllSpace(s)
    requires r == [] <==> AllSpace(right)
    ensures StripsTo(s, r, |right| - |r|, |right|) && (r == [] <==> AllSpace(s))
  {
    InnerSlice(s, right, r, |right| - |r|);
  }

  /** `r`, a suffix of the prefix `right` of `s`, whose own prefix is whitespace. */
  lemma InnerSlice(s: string, right: string, r: string, i: int)
    requires |right| <= |s| && right == s[..|right|]
    requires |r| <= |right| && i == |right| - |r| && r == right[i..] && AllSpace(right[..i])
    requires right == [] || !IsSpace(right[|right| - 1])
    ensures r == s[i..|right|] && AllSpace(s[..i])
    ensures AllSpace(right) ==> right == []
  {
    assert right[..i] == s[..i];
    if right != [] {
      assert !IsSpace(right[|right| - 1]);
    }
  }

  lemma TrimRightEmpty(s: string)
    ensures TrimRight(s) == [] <==> AllSpace(s)
  {
    var right := TrimRight(s);
    if right == [] {
      assert s[|right|..] == s;
    } else {
      assert right[|right| - 1] == s[|right| - 1];
      assert !AllSpace(s);
    }
  }

  lemma TrimLeftEmpty(s: string)
    ensures TrimLeft(s) == [] <==> AllSpace(s)
  {
    var left := TrimLeft(s);
    if left == [] {
      assert s[..|s| - |left|] == s;
    } else {
      assert left[0] == s[|s| - |left|];
      assert !AllSpace(s);
    }
  }

  // ---------------------------------------------------------------------
  // Occurrences of a substring

  /** `sub` occurs in `s` starting at index `i`. */
  predicate OccursAt(s: string, sub: string, i: int)
  {
    0 <= i && i + |sub| <= |s| && s[i..i + |sub|] == sub
  }

  /** Python's `sub in s`. */
  predicate Contains(s: string, sub: string)
  {
    exists i | 0 <= i <= |s| - |sub| :: OccursAt(s, sub, i)
  }

  predicate HasNoNewline(s: string)
  {
    forall k :: 0 <= k < |s| ==> s[k] != '\n'
  }

  /** `s.find(sub, start)`: the first occurrence at or after `start`, or -1. */
  function FindFrom(s: string, sub: string, start: nat): (r: int)
    requires start <= |s|
    ensures r == -1 || (start <= r && OccursAt(s, sub, r))
    ensures forall i :: start <= i && OccursAt(s, sub, i) ==> r != -1 && r <= i
    decreases |s| - start
  {
    if start + |sub| > |s| then -1
    else if OccursAt(s, sub, start) then start
    else if start == |s| then -1
    else FindFrom(s, sub, start + 1)
  }

  /** `s.find(sub)` */
  function Find(s: string, sub: string): (r: int)
    ensures r == -1 <==> !Contains(s, sub)
    ensures r != -1 ==> OccursAt(s, sub, r) && forall i :: 0 <= i < r ==> !OccursAt(s, sub, i)
  {
    FindFrom(s, sub, 0)
  }

  /** `s.rfind(sub, 0, end)`: the last occurrence lying wholly inside `s[..end]`, or -1. */
  function RFindBefore(s: string, sub: string, end: nat): (r: int)
    requires end <= |s|
    ensures r == -1 || (OccursAt(s, sub, r) && r + |sub| <= end)
    ensures forall i :: OccursAt(s, sub, i) && i + |sub| <= end ==> r != -1 && i <= r
  {
    if end < |sub| then -1
    else if OccursAt(s, sub, end - |sub|) then end - |sub|
    else if end == 0 then -1
    else RFindBefore(s, sub, end - 1)
  }

  /** `s.rfind(sub)` */
  function RFind(s: string, sub: string): (r: int)
    ensures r == -1 <==> !Contains(s, sub)
    ensures r != -1 ==> OccursAt(s, sub, r) && forall i :: r < i ==> !OccursAt(s, sub, i)
  {
    RFindBefore(s, sub, |s|)
  }

  /** The inverse of `Split`: the pieces glued back with `sep` between them. */
  function Join(parts: seq<string>, sep: string): string
  {
    if parts == [] then ""
    else if |parts| == 1 then parts[0]
    else parts[0] + sep + Join(parts[1..], sep)
  }

  /** `s.split(sep)` for a non-empty separator. */
  function Split(s: string, sep: string): (parts: seq<string>)
    requires sep != []
    ensures |parts| >= 1
    ensures Join(parts, sep) == s
    ensures forall k :: 0 <= k < |parts| ==> !Contains(parts[k], sep)
    decreases |s|
  {
    var i := Find(s, sep);
    if i == -1 then [s]
    else
      var head, rest := s[..i], Split(s[i + |sep|..], sep);
      CutAtFirst(s, sep, i);
      JoinCons(head, rest, sep);
      [head] + rest
  }

  /** Cutting `s` at the first occurrence of `sep` leaves a head free of `sep`. */
  lemma CutAtFirst(s: string, sep: string, i: int)
    requires sep != [] && i == Find(s, sep) && i != -1
    ensures !Contains(s[..i], sep)
    ensures s == s[..i] + sep + s[i + |sep|..]
    ensures Find(s[..i] + sep, sep) == i
  {
    var head, upTo := s[..i], s[..i + |sep|];
    assert s[i..i + |sep|] == sep;
    forall j | OccursAt(head, sep, j) ensures false {
      assert head[j..j + |sep|] == s[j..j + |sep|];
      assert OccursAt(s, sep, j);
    }
    assert head + sep == upTo;
    assert OccursAt(upTo, sep, i);
    forall j | 0 <= j < i && OccursAt(upTo, sep, j) ensures false {
      assert upTo[j..j + |sep|] == s[j..j + |sep|];
      assert OccursAt(s, sep, j);
    }
  }

  lemma JoinCons(head: string, rest: seq<string>, sep: string)
    requires rest != []
    ensures Join([head] + rest, sep) == head + sep + Join(rest, sep)
  {
    assert ([head] + rest)[1..] == rest;
  }

  /** `split` cuts at the leftmost occurrence each time: every piece but the
      last, followed by `sep`, holds its first occurrence of `sep` at its end.
      With `Join` this determines the pieces, also for a separator such as
      `----ARG----` whose occurrences can overlap. */
  lemma {:induction false} SplitCutsAtFirst(s: string, sep: string)
    requires sep != []
    ensures var parts := Split(s, sep);
      forall k :: 0 <= k < |parts| - 1 ==> Find(parts[k] + sep, sep) == |parts[k]|
    decreases |s|
  {
    var i := Find(s, sep);
    if i != -1 {
      var parts, rest := Split(s, sep), s[i + |sep|..];
      SplitCutsAtFirst(rest, sep);
      assert parts == [s[..i]] + Split(rest, sep);
      CutAtFirst(s, sep, i);
      forall k | 0 <= k < |parts| - 1 ensures Find(parts[k] + sep, sep) == |parts[k]| {
        if k > 0 {
          assert parts[k] == Split(rest, sep)[k - 1];
        }
      }
    }
  }

  /** The decimal digits of `n`, as Python's `str(n)` writes a non-negative int. */
  function NatToString(n: nat): (r: string)
    ensures |r| >= 1
    ensures forall k :: 0 <= k < |r| ==> '0' <= r[k] <= '9'
  {
    var digit := ['0' + (n % 10) as char];
    if n < 10 then digit else NatToString(n / 10) + digit
  }

  /** Python's `str(n)` for any `int`. */
  function IntToString(n: int): (r: string)
    ensures |r| >= 1
    ensures r[0] == '-' <==> n < 0
  {
    if n < 0 then "-" + NatToString(-n) else NatToString(n)
  }

  // ---------------------------------------------------------------------
  // Lemmas about whitespace trimming

  lemma {:induction false} TrimRightSpaceSuffix(s: string, w: string)
    requires AllSpace(w)
    ensures TrimRight(s + w) == TrimRight(s)
    decreases |w|
  {
    if w != [] {
      var w' := w[..|w| - 1];
      assert (s + w)[..|s + w| - 1] == s + w';
      TrimRightSpaceSuffix(s, w');
    } else {
      assert s + w == s;
    }
  }

  lemma {:induction false} TrimLeftSpacePrefix(w: string, s: string)
    requires AllSpace(w)
    ensures TrimLeft(w + s) == TrimLeft(s)
    decreases |w|
  {
    if w != [] {
      assert (w + s)[1..] == w[1..] + s;
      TrimLeftSpacePrefix(w[1..], s);
    } else {
      assert w + s == s;
    }
  }

  /** Stripping whitespace padding from an already stripped string gives it back. */
  lemma StripPadded(w1: string, v: string, w2: string)
    requires AllSpace(w1) && AllSpace(w2) && IsStripped(v)
    ensures Strip(w1 + v + w2) == v
  {
    TrimRightSpaceSuffix(w1 + v, w2);
    if v == [] {
      assert w1 + v == w1;
      assert AllSpace(w1 + v + w2);
    } else {
      assert TrimRight(w1 + v) == w1 + v;
      TrimLeftSpacePrefix(w1, v);
    }
  }

  /** A body that starts with a non-space loses only its trailing whitespace when
      padded by newlines and stripped. */
  lemma StripNewlinePadded(body: string)
    requires body != [] && !IsSpace(body[0])
    ensures Strip("\n" + body + "\n") == TrimRight(body)
  {
    TrimRightSpaceSuffix("\n" + body, "\n");
    TrimRightAppend("\n", body);
    TrimLeftSpacePrefix("\n", TrimRight(body));
    assert TrimRight(body)[0] == body[0];
  }

  /** A newline before a stripped string is dropped by `rstrip()` exactly when the string is empty. */
  lemma TrimRightNewlineStripped(v: string)
    requires IsStripped(v)
    ensures TrimRight("\n" + v) == if v == [] then [] else "\n" + v
  {
    if v != [] {
      TrimRightAppend("\n", v);
      assert TrimRight(v) == v;
    }
  }

  /** Cutting trailing whitespace only touches the right-hand operand when that
      operand is not all whitespace, or when the left operand ends in a non-space. */
  lemma {:induction false} TrimRightAppend(a: string, b: string)
    requires !AllSpace(b) || (a != [] && !IsSpace(a[|a| - 1]))
    ensures TrimRight(a + b) == a + TrimRight(b)
    decreases |b|
  {
    if b == [] {
      assert a + b == a;
    } else if IsSpace(b[|b| - 1]) {
      var b' := b[..|b| - 1];
      assert (a + b)[..|a + b| - 1] == a + b';
      assert !AllSpace(b') || (a != [] && !IsSpace(a[|a| - 1])) by {
        if AllSpace(b') && !AllSpace(b) {
          forall k | 0 <= k < |b| ensures IsSpace(b[k]) {
            if k < |b'| { assert b[k] == b'[k]; }
          }
        }
      }
      TrimRightAppend(a, b');
      assert (a + b)[|a + b| - 1] == b[|b| - 1];
      assert TrimRight(a + b) == TrimRight(a + b');
      assert TrimRight(b) == TrimRight(b');
    } else {
      assert (a + b)[|a + b| - 1] == b[|b| - 1];
      assert TrimRight(a + b) == a + b;
    }
  }

  // ---------------------------------------------------------------------
  // Lemmas about occurrences

  /** A string shorter than `sub` cannot contain it. */
  lemma ShortHasNoOccurrence(s: string, sub: string)
    requires |s| < |sub|
    ensures !Contains(s, sub)
  {
  }

  /** An occurrence of a newline-free `sub` in `a + "\n" + b` lies wholly in `a` or wholly in `b`. */
  lemma OccurrenceAroundNewline(a: string, b: string, sub: string, i: int)
    requires HasNoNewline(sub) && OccursAt(a + "\n" + b, sub, i)
    ensures (i + |sub| <= |a| && OccursAt(a, sub, i))
         || (i >= |a| + 1 && OccursAt(b, sub, i - |a| - 1))
  {
    var s := a + "\n" + b;
    assert s[|a|] == '\n';
    forall k | i <= k < i + |sub| ensures s[k] != '\n' {
      assert s[k] == s[i..i + |sub|][k - i];
    }
    if i <= |a| < i + |sub| {
      assert false;
    } else if i + |sub| <= |a| {
      assert s[i..i + |sub|] == a[i..i + |sub|];
    } else {
      assert s[i..i + |sub|] == b[i - |a| - 1..i - |a| - 1 + |sub|];
    }
  }

  /** An occurrence inside a prefix is an occurrence in the whole string. */
  lemma OccurrenceInLonger(a: string, b: string, sub: string, i: int)
    requires OccursAt(a, sub, i) && |a| <= |b| && a == b[..|a|]
    ensures OccursAt(b, sub, i)
  {
    assert b[i..i + |sub|] == a[i..i + |sub|];
  }

  /** An occurrence in the slice `s[i..j]` is an occurrence in `s`. */
  lemma OccurrenceInSlice(s: string, i: int, j: int, sub: string, k: int)
    requires 0 <= i <= j <= |s| && OccursAt(s[i..j], sub, k)
    ensures OccursAt(s, sub, i + k)
  {
    var inner, outer := s[i..j][k..k + |sub|], s[i + k..i + k + |sub|];
    forall t | 0 <= t < |inner| ensures inner[t] == outer[t] {
      assert inner[t] == s[i + k + t];
    }
    assert inner == outer;
  }

  /** Joining two strings free of a newline-free `sub` with a newline keeps them free of it. */
  lemma NewlineJoinHasNoOccurrence(a: string, b: string, sub: string)
    requires HasNoNewline(sub) && !Contains(a, sub) && !Contains(b, sub)
    ensures !Contains(a + "\n" + b, sub)
  {
    forall i | OccursAt(a + "\n" + b, sub, i) ensures false {
      OccurrenceAroundNewline(a, b, sub, i);
    }
  }
}
