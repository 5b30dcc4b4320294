/** The Python string operations the core relies on, written out with the
    semantics CPython gives them for `str`. */
module Strings {
  import opened Wrappers

  /** `c.isspace()`: the characters `str.strip()` removes. */
  predicate IsSpace(c: char) {
    c == ' ' || ('\t' <= c <= '\r') || ('\U{1c}' <= c <= '\U{1f}') ||
    c == '\U{85}' || c == '\U{a0}' || c == '\U{1680}' ||
    ('\U{2000}' <= c <= '\U{200a}') || c == '\U{2028}' || c == '\U{2029}' ||
    c == '\U{202f}' || c == '\U{205f}' || c == '\U{3000}'
  }

  /** Neither end of `s` is whitespace. */
  predicate Unpadded(s: string) {
    s == [] || (!IsSpace(s[0]) && !IsSpace(s[|s| - 1]))
  }

  function LStrip(s: string): (r: string)
    ensures |r| <= |s| && r == s[|s| - |r|..]
    ensures r == [] || !IsSpace(r[0])
  {
    if |s| > 0 && IsSpace(s[0]) then LStrip(s[1..]) else s
  }

  function RStrip(s: string): (r: string)
    ensures r <= s
    ensures r == [] || !IsSpace(r[|r| - 1])
  {
    if |s| > 0 && IsSpace(s[|s| - 1]) then RStrip(s[..|s| - 1]) else s
  }

  /** `s.strip()`: the longest unpadded infix left after removing
      whitespace from both ends. */
  function Strip(s: string): (r: string)
    ensures Unpadded(r) && |r| <= |s|
  {
    RStrip(LStrip(s))
  }

  /** `strip()` leaves an unpadded text as it is. */
  lemma StripUnpadded(s: string)
    requires Unpadded(s)
    ensures Strip(s) == s
  {
  }

  lemma LStripLeadingNewline(s: string)
    ensures LStrip("\n" + s) == LStrip(s)
  {
    var t := "\n" + s;
    assert IsSpace(t[0]) && t[1..] == s;
  }

  lemma {:induction false} LStripTrailingNewline(s: string)
    ensures LStrip(s + "\n") == if LStrip(s) == [] then [] else LStrip(s) + "\n"
  {
    if |s| > 0 && IsSpace(s[0]) {
      assert (s + "\n")[1..] == s[1..] + "\n";
      LStripTrailingNewline(s[1..]);
    } else if |s| == 0 {
      assert LStrip("\n") == LStrip("\n"[1..]);
    }
  }

  lemma RStripTrailingNewline(s: string)
    ensures RStrip(s + "\n") == RStrip(s)
  {
    assert (s + "\n")[..|s|] == s;
  }

  /** Newlines around a text do not change what `strip()` leaves. */
  lemma StripAroundNewlines(s: string)
    ensures Strip("\n" + s + "\n") == Strip(s)
  {
    assert "\n" + s + "\n" == "\n" + (s + "\n");
    LStripLeadingNewline(s + "\n");
    LStripTrailingNewline(s);
    if LStrip(s) != [] {
      RStripTrailingNewline(LStrip(s));
    }
  }

  /** `sub` occurs in `s` starting at index `i`. */
  predicate OccursAt(s: string, sub: string, i: nat) {
    i + |sub| <= |s| && s[i..i + |sub|] == sub
  }

  /** `sub in s`. */
  predicate Contains(s: string, sub: string) {
    exists i: nat :: i <= |s| && OccursAt(s, sub, i)
  }

  predicate StartsWith(s: string, prefix: string) {
    OccursAt(s, prefix, 0)
  }

  predicate EndsWith(s: string, suffix: string) {
    |suffix| <= |s| && s[|s| - |suffix|..] == suffix
  }

  /** `s.find(sub, from)`: the first occurrence at or after `from`. */
  function Find(s: string, sub: string, from: nat): (r: Option<nat>)
    decreases |s| - from
    ensures r.Some? ==> from <= r.value <= |s| && OccursAt(s, sub, r.value)
    ensures r.Some? ==> forall j: nat :: from <= j < r.value ==> !OccursAt(s, sub, j)
    ensures r.None? ==> forall j: nat :: from <= j ==> !OccursAt(s, sub, j)
  {
    if from > |s| then None
    else if OccursAt(s, sub, from) then Some(from)
    else Find(s, sub, from + 1)
  }

  lemma FindNoneIffAbsent(s: string, sub: string)
    ensures Find(s, sub, 0).None? <==> !Contains(s, sub)
  {
    if Contains(s, sub) {
      var i: nat :| i <= |s| && OccursAt(s, sub, i);
      assert Find(s, sub, 0).Some?;
    }
  }

  /** `s.split(sep)[0]`: everything before the first `sep`. */
  function SplitFirst(s: string, sep: string): (r: string)
    requires sep != []
    ensures r == s <==> !Contains(s, sep)
    ensures r <= s && !Contains(r, sep)
    ensures Contains(s, sep) ==> r + sep <= s
    ensures forall j: nat :: j < |r| ==> !OccursAt(s, sep, j)
  {
    FindNoneIffAbsent(s, sep);
    match Find(s, sep, 0)
    case None => s
    case Some(i) =>
      assert forall j: nat :: OccursAt(s[..i], sep, j) ==> OccursAt(s, sep, j);
      assert s[..i] + sep == s[..i + |sep|];
      s[..i]
  }

  /** A text without `sub` has no `sub` in any of its infixes. */
  lemma AbsentFromInfix(s: string, sub: string, i: nat, j: nat)
    requires i <= j <= |s| && !Contains(s, sub)
    ensures !Contains(s[i..j], sub)
  {
    if Contains(s[i..j], sub) {
      var t := s[i..j];
      var k: nat :| k <= |t| && OccursAt(t, sub, k);
      forall m | 0 <= m < |sub|
        ensures s[i + k + m] == sub[m]
      {
        assert t[k..k + |sub|][m] == t[k + m] == s[i + k + m];
      }
      assert s[i + k..i + k + |sub|] == sub;
      assert OccursAt(s, sub, i + k);
    }
  }

  /** `i` is where `sub` first occurs in `s`. */
  predicate FirstOccurrence(s: string, sub: string, i: nat) {
    OccursAt(s, sub, i) && forall j: nat :: j < i ==> !OccursAt(s, sub, j)
  }

  /** `s.split(sep)[1]`, present when `sep` occurs in `s`: the text
      between its first and its second occurrence. */
  function SplitSecond(s: string, sep: string): (r: Option<string>)
    requires sep != []
    ensures r.Some? <==> Contains(s, sep)
    ensures r.Some? ==> !Contains(r.value, sep)
    ensures r.Some? ==>
      exists i: nat :: i + |sep| <= |s| && FirstOccurrence(s, sep, i) && r.value == SplitFirst(s[i + |sep|..], sep)
  {
    FindNoneIffAbsent(s, sep);
    match Find(s, sep, 0)
    case None => None
    case Some(i) =>
      assert FirstOccurrence(s, sep, i);
      Some(SplitFirst(s[i + |sep|..], sep))
  }

  /** A Python index `k` into a sequence of length `len`, as slicing
      normalises it: negative counts from the end, then clamped. */
  function PyIndex(len: nat, k: int): (r: nat)
    ensures r <= len
    ensures 0 <= k <= len ==> r == k
    ensures -(len as int) <= k < 0 ==> r == len + k
  {
    if k < 0 then (if len + k < 0 then 0 else len + k)
    else if k > len then len
    else k
  }

  /** `s[:k]`. */
  function Take(s: string, k: int): (r: string)
    ensures r == s[..PyIndex(|s|, k)]
  {
    s[..PyIndex(|s|, k)]
  }

  /** `s[k:]`. */
  function Drop(s: string, k: int): (r: string)
    ensures r == s[PyIndex(|s|, k)..]
  {
    s[PyIndex(|s|, k)..]
  }

  function UpperChar(c: char): char {
    if 'a' <= c <= 'z' then (c as int - 32) as char else c
  }

  function LowerChar(c: char): char {
    if 'A' <= c <= 'Z' then (c as int + 32) as char else c
  }

  /** `s.upper()` on the ASCII letters. */
  function Upper(s: string): (r: string)
    ensures |r| == |s| && forall i :: 0 <= i < |s| ==> r[i] == UpperChar(s[i])
  {
    seq(|s|, i requires 0 <= i < |s| => UpperChar(s[i]))
  }

  /** `s.lower()` on the ASCII letters. */
  function Lower(s: string): (r: string)
    ensures |r| == |s| && forall i :: 0 <= i < |s| ==> r[i] == LowerChar(s[i])
  {
    seq(|s|, i requires 0 <= i < |s| => LowerChar(s[i]))
  }

  /** `sep.join(parts)`. */
  function Join(parts: seq<string>, sep: string): string {
    if parts == [] then []
    else if |parts| == 1 then parts[0]
    else parts[0] + sep + Join(parts[1..], sep)
  }

  /** `"".join(parts)`. */
  function Concat(parts: seq<string>): string {
    if parts == [] then [] else parts[0] + Concat(parts[1..])
  }

  lemma ConcatAppend(a: seq<string>, b: seq<string>)
    ensures Concat(a + b) == Concat(a) + Concat(b)
  {
    if a != [] {
      assert (a + b)[0] == a[0] && (a + b)[1..] == a[1..] + b;
      ConcatAppend(a[1..], b);
      assert Concat(a + b) == a[0] + Concat(a[1..] + b);
    } else {
      assert a + b == b;
    }
  }

  lemma ConcatSnoc(a: seq<string>, x: string)
    ensures Concat(a + [x]) == Concat(a) + x
  {
    ConcatAppend(a, [x]);
  }

  /** The index of the first `c` in `s`, or `|s|`. */
  function IndexOfChar(s: string, c: char): (k: nat)
    ensures k <= |s| && (k < |s| ==> s[k] == c)
    ensures forall j :: 0 <= j < k ==> s[j] != c
  {
    if s == [] then 0
    else if s[0] == c then 0
    else 1 + IndexOfChar(s[1..], c)
  }

  /** `s.split(c)` for a one-character separator. */
  function SplitOn(s: string, c: char): (r: seq<string>)
    decreases |s|
    ensures |r| >= 1
    ensures forall i, j :: 0 <= i < |r| && 0 <= j < |r[i]| ==> r[i][j] != c
  {
    var k := IndexOfChar(s, c);
    if k == |s| then [s] else [s[..k]] + SplitOn(s[k + 1..], c)
  }

  lemma {:induction false} JoinSplitOn(s: string, c: char)
    decreases |s|
    ensures Join(SplitOn(s, c), [c]) == s
  {
    var k := IndexOfChar(s, c);
    if k < |s| {
      var rest := SplitOn(s[k + 1..], c);
      JoinSplitOn(s[k + 1..], c);
      assert SplitOn(s, c) == [s[..k]] + rest;
      assert s == s[..k] + [c] + s[k + 1..];
    }
  }

  /** Line boundaries of `str.splitlines()`. */
  predicate IsLineBoundary(c: char) {
    ('\n' <= c <= '\r') || ('\U{1c}' <= c <= '\U{1e}') ||
    c == '\U{85}' || c == '\U{2028}' || c == '\U{2029}'
  }

  /** The index of the first line boundary in `s`, or `|s|`. */
  function FirstBoundary(s: string): (k: nat)
    ensures k <= |s| && (k < |s| ==> IsLineBoundary(s[k]))
  {
    if s == [] then 0
    else if IsLineBoundary(s[0]) then 0
    else 1 + FirstBoundary(s[1..])
  }

  /** `s.splitlines()`: lines without their terminators; `\r\n` is one
      terminator, and a trailing terminator does not start a new line. */
  function SplitLines(s: string): (r: seq<string>)
    decreases |s|
    ensures s == [] <==> r == []
  {
    if s == [] then []
    else
      var k := FirstBoundary(s);
      if k == |s| then [s]
      else
        var w := if s[k] == '\r' && k + 1 < |s| && s[k + 1] == '\n' then 2 else 1;
        [s[..k]] + SplitLines(s[k + w..])
  }

  lemma {:induction false} FirstBoundaryAppend(a: string, b: string)
    decreases |a|
    ensures FirstBoundary(a + b) == if FirstBoundary(a) < |a| then FirstBoundary(a) else |a| + FirstBoundary(b)
  {
    if a == [] {
      assert a + b == b;
    } else if !IsLineBoundary(a[0]) {
      assert (a + b)[1..] == a[1..] + b;
      FirstBoundaryAppend(a[1..], b);
    }
  }

  /** The first boundary comes no later than any boundary. */
  lemma {:induction false} FirstBoundaryBefore(s: string, j: nat)
    requires j < |s| && IsLineBoundary(s[j])
    decreases j
    ensures FirstBoundary(s) <= j
  {
    if j > 0 && !IsLineBoundary(s[0]) {
      FirstBoundaryBefore(s[1..], j - 1);
    }
  }

  /** Text without boundaries has none to find. */
  lemma {:induction false} FirstBoundaryNone(s: string)
    requires forall j :: 0 <= j < |s| ==> !IsLineBoundary(s[j])
    decreases |s|
    ensures FirstBoundary(s) == |s|
  {
    if s != [] {
      FirstBoundaryNone(s[1..]);
    }
  }

  /** The width of the line terminator at `k`: `\r\n` counts as one. */
  function TerminatorWidth(s: string, k: nat): nat
    requires k < |s|
  {
    if s[k] == '\r' && k + 1 < |s| && s[k + 1] == '\n' then 2 else 1
  }

  /** Text that ends with a line boundary splits on its own, unless a final
      `\r` would join a leading `\n` of what follows. */
  lemma {:induction false} SplitLinesAppend(a: string, b: string)
    requires a == [] || (IsLineBoundary(a[|a| - 1]) && !(a[|a| - 1] == '\r' && b != [] && b[0] == '\n'))
    decreases |a|
    ensures SplitLines(a + b) == SplitLines(a) + SplitLines(b)
  {
    if a == [] {
      assert a + b == b;
    } else {
      var k := FirstBoundary(a);
      AppendHead(a, b);
      var w := TerminatorWidth(a, k);
      var rest := a[k + w..];
      SplitLinesAppend(rest, b);
      AppendStep(a, b, k, w, rest);
    }
  }

  /** The first line of `a + b` is that of `a`, when `a` ends a line. */
  lemma AppendHead(a: string, b: string)
    requires a != [] && IsLineBoundary(a[|a| - 1]) && !(a[|a| - 1] == '\r' && b != [] && b[0] == '\n')
    ensures var k := FirstBoundary(a);
      k < |a| && FirstBoundary(a + b) == k && TerminatorWidth(a + b, k) == TerminatorWidth(a, k) &&
      var j := k + TerminatorWidth(a, k);
      (a + b)[..k] == a[..k] && (a + b)[j..] == a[j..] + b &&
      (a[j..] == [] || a[j..][|a[j..]| - 1] == a[|a| - 1])
  {
    var k := FirstBoundary(a);
    FirstBoundaryBefore(a, |a| - 1);
    FirstBoundaryAppend(a, b);
    WidthAppend(a, b, k);
    SliceAppend(a, b, k, k + TerminatorWidth(a, k));
  }

  lemma AppendStep(a: string, b: string, k: nat, w: nat, rest: string)
    requires k == FirstBoundary(a) && k == FirstBoundary(a + b) && k < |a|
    requires w == TerminatorWidth(a, k) && w == TerminatorWidth(a + b, k)
    requires rest == a[k + w..] && (a + b)[..k] == a[..k] && (a + b)[k + w..] == rest + b
    requires SplitLines(rest + b) == SplitLines(rest) + SplitLines(b)
    ensures SplitLines(a + b) == SplitLines(a) + SplitLines(b)
  {
    SplitLinesCons(a, k, w, a[..k], rest);
    SplitLinesCons(a + b, k, w, a[..k], rest + b);
    ConsCompose(SplitLines(a + b), SplitLines(a), SplitLines(b), a[..k], SplitLines(rest), SplitLines(rest + b));
  }

  lemma ConsCompose(x: seq<string>, y: seq<string>, z: seq<string>, h: string, r: seq<string>, rz: seq<string>)
    requires x == [h] + rz && y == [h] + r && rz == r + z
    ensures x == y + z
  {
  }

  /** One step of `SplitLines`, at the first terminator. */
  lemma SplitLinesCons(s: string, k: nat, w: nat, head: string, tail: string)
    requires k == FirstBoundary(s) && k < |s| && w == TerminatorWidth(s, k)
    requires head == s[..k] && tail == s[k + w..]
    ensures SplitLines(s) == [head] + SplitLines(tail)
  {
  }

  lemma SliceAppend(a: string, b: string, k: nat, j: nat)
    requires k < j <= |a|
    ensures (a + b)[..k] == a[..k] && (a + b)[j..] == a[j..] + b
    ensures a[j..] == [] || a[j..][|a[j..]| - 1] == a[|a| - 1]
  {
  }

  lemma WidthAppend(a: string, b: string, k: nat)
    requires k < |a| && IsLineBoundary(a[|a| - 1]) && !(a[|a| - 1] == '\r' && b != [] && b[0] == '\n')
    ensures TerminatorWidth(a + b, k) == TerminatorWidth(a, k)
  {
    assert (a + b)[k] == a[k];
    assert k + 1 < |a| ==> (a + b)[k + 1] == a[k + 1];
  }

  /** Lines without boundaries, each ended by `\n`, split back into
      themselves. */
  lemma {:induction false} SplitJoined(lines: seq<string>)
    requires lines != []
    requires forall i, j :: 0 <= i < |lines| && 0 <= j < |lines[i]| ==> !IsLineBoundary(lines[i][j])
    decreases |lines|
    ensures SplitLines(Join(lines, "\n") + "\n") == lines
  {
    var x := lines[0];
    var tail := if |lines| == 1 then [] else Join(lines[1..], "\n") + "\n";
    assert Join(lines, "\n") + "\n" == x + ("\n" + tail);
    LineThenNewline(x, tail);
    if |lines| > 1 {
      SplitJoined(lines[1..]);
      assert lines == [x] + lines[1..];
    }
  }

  /** A line without boundaries ended by `\n` comes first. */
  lemma LineThenNewline(x: string, tail: string)
    requires forall j :: 0 <= j < |x| ==> !IsLineBoundary(x[j])
    ensures SplitLines(x + ("\n" + tail)) == [x] + SplitLines(tail)
  {
    var s := x + ("\n" + tail);
    FirstBoundaryNone(x);
    FirstBoundaryAppend(x, "\n" + tail);
    assert s[|x|] == '\n';
    assert s[..|x|] == x && s[|x| + 1..] == tail;
    SplitLinesCons(s, |x|, 1, x, tail);
  }

  /** The lines a final `\n` adds to `s`: one empty line after a
      terminator other than `\r`, or in the empty text; none otherwise,
      since the `\n` then ends the last line or joins a final `\r`. */
  function NewlineExtra(s: string): seq<string> {
    if s == [] || (IsLineBoundary(s[|s| - 1]) && s[|s| - 1] != '\r') then [[]] else []
  }

  /** A newline at the end keeps the lines there were and adds
      `NewlineExtra(s)`. */
  lemma {:induction false} SplitLinesNewline(s: string)
    decreases |s|
    ensures SplitLines(s + "\n") == SplitLines(s) + NewlineExtra(s)
  {
    if s == [] {
      SplitLinesCons("\n", 0, 1, [], []);
    } else {
      var k := FirstBoundary(s);
      FirstBoundaryAppend(s, "\n");
      if k == |s| {
        NewlineEndsLine(s);
      } else if s[k] == '\r' && k + 1 == |s| {
        NewlineJoinsReturn(s, k);
      } else {
        var w := TerminatorWidth(s, k);
        SplitLinesNewline(s[k + w..]);
        NewlineAfterLine(s, k, w);
      }
    }
  }

  /** Text without a boundary: the newline ends its only line. */
  lemma NewlineEndsLine(s: string)
    requires s != [] && FirstBoundary(s) == |s| && FirstBoundary(s + "\n") == |s|
    ensures SplitLines(s + "\n") == SplitLines(s) + NewlineExtra(s)
  {
    var t := s + "\n";
    if IsLineBoundary(s[|s| - 1]) {
      FirstBoundaryBefore(s, |s| - 1);
    }
    assert t[..|s|] == s && t[|s|] == '\n' && t[|s| + 1..] == [];
    SplitLinesCons(t, |s|, 1, s, []);
  }

  /** A final `\r` that is the first boundary: the newline joins it. */
  lemma NewlineJoinsReturn(s: string, k: nat)
    requires k == FirstBoundary(s) && k + 1 == |s| && s[k] == '\r' && FirstBoundary(s + "\n") == k
    ensures SplitLines(s + "\n") == SplitLines(s) + NewlineExtra(s)
  {
    var t := s + "\n";
    assert t[..k] == s[..k] && t[k] == '\r' && t[k + 1] == '\n' && t[k + 2..] == [] && s[k + 1..] == [];
    SplitLinesCons(s, k, 1, s[..k], []);
    SplitLinesCons(t, k, 2, s[..k], []);
  }

  /** The first line ends before the end: the rest gains the newline. */
  lemma NewlineAfterLine(s: string, k: nat, w: nat)
    requires k == FirstBoundary(s) && k < |s| && FirstBoundary(s + "\n") == k
    requires !(s[k] == '\r' && k + 1 == |s|) && w == TerminatorWidth(s, k)
    requires SplitLines(s[k + w..] + "\n") == SplitLines(s[k + w..]) + NewlineExtra(s[k + w..])
    ensures SplitLines(s + "\n") == SplitLines(s) + NewlineExtra(s)
  {
    var rest := s[k + w..];
    FirstLineBeforeNewline(s, k, w);
    NewlineExtraOfRest(s, k, w);
    ConsAssoc(s[..k], SplitLines(rest), NewlineExtra(s));
  }

  /** Both texts split at the same first terminator. */
  lemma FirstLineBeforeNewline(s: string, k: nat, w: nat)
    requires k == FirstBoundary(s) && k < |s| && FirstBoundary(s + "\n") == k
    requires !(s[k] == '\r' && k + 1 == |s|) && w == TerminatorWidth(s, k)
    ensures SplitLines(s) == [s[..k]] + SplitLines(s[k + w..])
    ensures SplitLines(s + "\n") == [s[..k]] + SplitLines(s[k + w..] + "\n")
  {
    NewlineSlices(s, k, w);
    SplitLinesCons(s, k, w, s[..k], s[k + w..]);
    SplitLinesCons(s + "\n", k, w, s[..k], s[k + w..] + "\n");
  }

  lemma NewlineSlices(s: string, k: nat, w: nat)
    requires k < |s| && !(s[k] == '\r' && k + 1 == |s|) && w == TerminatorWidth(s, k)
    ensures var t := s + "\n";
      k + w <= |s| && t[..k] == s[..k] && TerminatorWidth(t, k) == w && t[k + w..] == s[k + w..] + "\n"
  {
    var t := s + "\n";
    assert t[k] == s[k];
    assert k + 1 < |s| ==> t[k + 1] == s[k + 1];
  }

  /** What follows the first terminator ends as `s` does. */
  lemma NewlineExtraOfRest(s: string, k: nat, w: nat)
    requires k < |s| && IsLineBoundary(s[k]) && !(s[k] == '\r' && k + 1 == |s|) && w == TerminatorWidth(s, k)
    ensures NewlineExtra(s[k + w..]) == NewlineExtra(s)
  {
    var rest := s[k + w..];
    if rest != [] {
      assert rest[|rest| - 1] == s[|s| - 1];
    } else {
      assert s[|s| - 1] == s[k + w - 1];
    }
  }

  /** A last line that is empty follows a line boundary at the end. */
  lemma {:induction false} LastEmptyLine(s: string)
    requires var r := SplitLines(s); r != [] && r[|r| - 1] == []
    decreases |s|
    ensures s != [] && IsLineBoundary(s[|s| - 1])
  {
    var k := FirstBoundary(s);
    if k < |s| {
      var w := if s[k] == '\r' && k + 1 < |s| && s[k + 1] == '\n' then 2 else 1;
      if s[k + w..] != [] {
        LastEmptyLine(s[k + w..]);
        assert s[k + w..][|s[k + w..]| - 1] == s[|s| - 1];
      }
    }
  }

  /** Universal-newline translation of a file opened in text mode:
      `\r\n` and a lone `\r` are both read as `\n`. */
  function Universal(s: string): (r: string)
    decreases |s|
    ensures '\r' !in r
  {
    if s == [] then []
    else if s[0] == '\r' then
      (if |s| > 1 && s[1] == '\n' then "\n" + Universal(s[2..]) else "\n" + Universal(s[1..]))
    else [s[0]] + Universal(s[1..])
  }

  lemma {:induction false} UniversalNoCR(s: string)
    requires '\r' !in s
    ensures Universal(s) == s
  {
    if s != [] {
      assert '\r' !in s[1..];
      UniversalNoCR(s[1..]);
    }
  }

  /** `f.readlines()` on the translated text: each line keeps its `\n`,
      and only the last may lack one. */
  function ReadLines(s: string): (r: seq<string>)
    decreases |s|
    ensures Concat(r) == s
  {
    if s == [] then []
    else
      var k := IndexOfChar(s, '\n');
      if k == |s| then [s]
      else
        assert s == s[..k + 1] + s[k + 1..];
        [s[..k + 1]] + ReadLines(s[k + 1..])
  }

  /** Each line with its `\n`. */
  function Terminated(lines: seq<string>): (r: seq<string>)
    ensures |r| == |lines|
  {
    if lines == [] then [] else [lines[0] + "\n"] + Terminated(lines[1..])
  }

  lemma TerminatedSnoc(lines: seq<string>, last: string)
    ensures Terminated(lines + [last]) == Terminated(lines) + [last + "\n"]
  {
    if lines != [] {
      assert (lines + [last])[1..] == lines[1..] + [last];
      TerminatedSnoc(lines[1..], last);
    }
  }

  /** Text ending in a newline is read line by line on its own. */
  lemma {:induction false} ReadLinesAppend(a: string, b: string)
    requires a == [] || a[|a| - 1] == '\n'
    decreases |a|
    ensures ReadLines(a + b) == ReadLines(a) + ReadLines(b)
  {
    if a == [] {
      assert a + b == b;
    } else {
      var k := IndexOfChar(a, '\n');
      NewlineFound(a);
      CutAppend(a, b, k + 1);
      ReadLinesAppend(a[k + 1..], b);
      ReadLinesAppendStep(a, b, k);
    }
  }

  /** The step of `ReadLinesAppend`: the first line of `a` is that of `a + b`. */
  lemma ReadLinesAppendStep(a: string, b: string, k: nat)
    requires k == IndexOfChar(a, '\n') && k < |a|
    requires ReadLines(a[k + 1..] + b) == ReadLines(a[k + 1..]) + ReadLines(b)
    ensures ReadLines(a + b) == ReadLines(a) + ReadLines(b)
  {
    IndexOfCharPrefix(a, b, '\n');
    ReadLinesUnfold(a, k);
    ReadLinesUnfold(a + b, k);
    CutAppend(a, b, k + 1);
    ConsAssoc(a[..k + 1], ReadLines(a[k + 1..]), ReadLines(b));
  }

  lemma ConsAssoc(h: string, x: seq<string>, z: seq<string>)
    ensures [h] + (x + z) == ([h] + x) + z
  {
  }

  /** Cutting `a + b` within `a`. */
  lemma CutAppend(a: string, b: string, j: nat)
    requires j <= |a|
    ensures (a + b)[..j] == a[..j] && (a + b)[j..] == a[j..] + b
    ensures a[j..] == [] || a[j..][|a[j..]| - 1] == a[|a| - 1]
  {
  }

  /** Text ending in a newline has one. */
  lemma NewlineFound(a: string)
    requires a != [] && a[|a| - 1] == '\n'
    ensures IndexOfChar(a, '\n') < |a|
  {
  }

  /** Reading text with a newline at `k`, the first one: its first line ends there. */
  lemma ReadLinesUnfold(s: string, k: nat)
    requires k == IndexOfChar(s, '\n') && k < |s|
    ensures ReadLines(s) == [s[..k + 1]] + ReadLines(s[k + 1..])
  {
  }

  /** A character found in `a` is found at the same place in `a + b`. */
  lemma IndexOfCharPrefix(a: string, b: string, c: char)
    requires IndexOfChar(a, c) < |a|
    ensures IndexOfChar(a + b, c) == IndexOfChar(a, c)
  {
    var k, k2 := IndexOfChar(a, c), IndexOfChar(a + b, c);
    assert (a + b)[k] == c;
    if k2 < k {
      assert (a + b)[k2] == a[k2];
    }
  }

  /** Lines joined with newline terminators read back as those lines. */
  lemma {:induction false} ReadLinesTerminated(c: string)
    decreases |c|
    ensures ReadLines(c + "\n") == Terminated(SplitOn(c, '\n'))
  {
    var k := IndexOfChar(c, '\n');
    var t := c + "\n";
    var k2 := IndexOfChar(t, '\n');
    assert t[k] == '\n';
    assert k2 == k;
    if k == |c| {
      assert t[..k + 1] == t && t[k + 1..] == [];
    } else {
      assert t[..k + 1] == c[..k] + "\n";
      assert t[k + 1..] == c[k + 1..] + "\n";
      ReadLinesTerminated(c[k + 1..]);
    }
  }

  /** One line with its newline reads as itself. */
  lemma ReadLinesOne(line: string)
    requires '\n' !in line
    ensures ReadLines(line + "\n") == [line + "\n"]
  {
    var t := line + "\n";
    var k := IndexOfChar(t, '\n');
    assert t[|line|] == '\n';
    assert k == |line|;
    assert t[..k + 1] == t && t[k + 1..] == [];
  }
}
