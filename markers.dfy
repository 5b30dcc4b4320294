/** The file-marker wire format: a generated file is the text between
    `-- FILE_START: <name>` and `-- FILE_END: <name>`. Both extractors in
    the source build a regular expression by pasting the filename into
    the pattern without escaping it, so a `.` in the filename matches any
    character; the model keeps that. The search itself is stated for any
    pair of patterns `s` (the lookbehind) and `t` (the lookahead). */
module Markers {
  import opened Wrappers
  import opened Strings

  function FileStart(filename: string): string {
    "-- FILE_START: " + filename
  }

  function FileEnd(filename: string): string {
    "-- FILE_END: " + filename
  }

  /** The two markers of any pair of names differ, already at index 8. */
  lemma MarkersDiffer(a: string, b: string)
    ensures FileStart(a) != FileEnd(b)
  {
    assert FileStart(a)[8] == 'S' && FileEnd(b)[8] == 'E';
  }

  /** A filename that, pasted into the pattern, holds no regex operator
      other than `.`. */
  predicate RegexPlain(filename: string) {
    forall i :: 0 <= i < |filename| ==> filename[i] !in "^$*+?{}[]\\|()"
  }

  /** The literal-with-wildcards pattern `pat` matches `text` at `i`. */
  predicate PatternAt(text: string, pat: string, i: nat) {
    i + |pat| <= |text| &&
    forall k :: i <= k < i + |pat| ==> pat[k - i] == '.' || text[k] == pat[k - i]
  }

  /** No match of `pat` in `text` starts before `k`. */
  predicate NoMatchBefore(text: string, pat: string, k: nat) {
    forall i: nat :: i < k ==> !PatternAt(text, pat, i)
  }

  /** The first match of `pat` in `text` at or after `from`. */
  function FindPattern(text: string, pat: string, from: nat): (r: Option<nat>)
    decreases |text| - from
    ensures r.Some? ==> from <= r.value && PatternAt(text, pat, r.value)
    ensures r.Some? ==> forall j: nat :: from <= j < r.value ==> !PatternAt(text, pat, j)
    ensures r.None? ==> forall j: nat :: from <= j ==> !PatternAt(text, pat, j)
  {
    if from + |pat| > |text| then None
    else if PatternAt(text, pat, from) then Some(from)
    else FindPattern(text, pat, from + 1)
  }

  lemma PatternAtSelf(text: string, pat: string, i: nat)
    requires i + |pat| <= |text| && text[i..i + |pat|] == pat
    ensures PatternAt(text, pat, i)
  {
    forall k | i <= k < i + |pat|
      ensures text[k] == pat[k - i]
    {
      assert text[i..i + |pat|][k - i] == text[k];
    }
  }

  /** The first match at or after `from` is the one at `k` when none lies
      in between. */
  lemma {:induction false} FindPatternIs(text: string, pat: string, from: nat, k: nat)
    requires from <= k && PatternAt(text, pat, k)
    requires forall j: nat :: from <= j < k ==> !PatternAt(text, pat, j)
    decreases k - from
    ensures FindPattern(text, pat, from) == Some(k)
  {
    if from < k {
      FindPatternIs(text, pat, from + 1, k);
    }
  }

  /** A match in a prefix of `text` is a match in `text`, and back. */
  lemma PatternAtPrefix(text: string, more: string, pat: string, i: nat)
    requires i + |pat| <= |text|
    ensures PatternAt(text + more, pat, i) <==> PatternAt(text, pat, i)
  {
    assert forall k :: i <= k < i + |pat| ==> (text + more)[k] == text[k];
  }

  /** A match in a suffix of `text` is a match in `text`, shifted. */
  lemma PatternAtShift(before: string, text: string, pat: string, i: nat)
    ensures PatternAt(before + text, pat, |before| + i) <==> PatternAt(text, pat, i)
  {
    if i + |pat| <= |text| {
      assert forall k :: i <= k < i + |pat| ==> (before + text)[|before| + k] == text[k];
    }
  }

  /** A pattern found after `before`, with no match from the end of
      `before` up to it, is the first match from there. */
  lemma FirstMatchAfter(before: string, mid: string, pat: string, rest: string)
    requires NoMatchBefore(mid + pat, pat, |mid|)
    ensures FindPattern(before + mid + pat + rest, pat, |before|) == Some(|before| + |mid|)
  {
    var text := before + mid + pat + rest;
    var k := |before| + |mid|;
    assert text == before + ((mid + pat) + rest);
    assert text[k..k + |pat|] == pat;
    PatternAtSelf(text, pat, k);
    forall j: nat | |before| <= j < k
      ensures !PatternAt(text, pat, j)
    {
      PatternAtShift(before, (mid + pat) + rest, pat, j - |before|);
      PatternAtPrefix(mid + pat, rest, pat, j - |before|);
    }
    FindPatternIs(text, pat, |before|, k);
  }

  /** `FirstMatchAfter` for a text given whole. */
  lemma FirstMatchAt(text: string, before: string, mid: string, pat: string, rest: string, k: nat)
    requires text == before + mid + pat + rest && k == |before|
    requires NoMatchBefore(mid + pat, pat, |mid|)
    ensures FindPattern(text, pat, k) == Some(k + |mid|)
  {
    FirstMatchAfter(before, mid, pat, rest);
  }

  /** The first match from the start, when none comes before `|pre|`. */
  lemma FirstMatch(text: string, pre: string, pat: string, rest: string)
    requires text == pre + pat + rest
    requires NoMatchBefore(pre + pat, pat, |pre|)
    ensures FindPattern(text, pat, 0) == Some(|pre|)
  {
    assert text == [] + pre + pat + rest;
    FirstMatchAt(text, [], pre, pat, rest, 0);
  }

  /** Where the lookbehind `s` first matches, the span up to the first
      match of the lookahead `t` from there: `(?<=s)(.*?)(?=t)` under
      `re.DOTALL`. Every match of `s` has the same length, so the first
      position the search tries with `s` behind it is the end of the first
      match of `s`; if no `t` follows that one, none follows a later one. */
  function MarkedSpan(text: string, s: string, t: string): (r: Option<(nat, nat)>)
    ensures r.Some? ==> r.value.0 <= r.value.1 && PatternAt(text, t, r.value.1)
    ensures r.Some? ==> r.value.0 >= |s| && PatternAt(text, s, r.value.0 - |s|)
  {
    var start := FindPattern(text, s, 0);
    if start.None? then None
    else
      var p := start.value + |s|;
      var end := FindPattern(text, t, p);
      if end.None? then None else Some((p, end.value))
  }

  /** The span from the two searches it is made of. */
  lemma MarkedSpanIs(text: string, s: string, t: string, i: nat, e: nat)
    requires FindPattern(text, s, 0) == Some(i)
    requires FindPattern(text, t, i + |s|) == Some(e)
    ensures MarkedSpan(text, s, t) == Some((i + |s|, e))
  {
  }

  /** Some match of `s` has a match of `t` at or after its end. */
  ghost predicate Marked(text: string, s: string, t: string) {
    exists i: nat, e: nat :: PatternAt(text, s, i) && i + |s| <= e && PatternAt(text, t, e)
  }

  /** The search finds nothing exactly when no `s` is followed by a `t`. */
  lemma MarkedSpanNoneIffUnmarked(text: string, s: string, t: string)
    ensures MarkedSpan(text, s, t).None? <==> !Marked(text, s, t)
  {
    if Marked(text, s, t) {
      var i: nat, e: nat :| PatternAt(text, s, i) && i + |s| <= e && PatternAt(text, t, e);
      var first := FindPattern(text, s, 0);
      assert first.Some? && first.value <= i;
      assert FindPattern(text, t, first.value + |s|).Some?;
    }
  }

  /** The span of a text built around `mid`: the first `s` ends right
      before it and the first `t` after that starts right after it. */
  lemma MarkedSpanOf(pre: string, s: string, mid: string, t: string, post: string)
    requires NoMatchBefore(pre + s, s, |pre|)
    requires NoMatchBefore(mid + t, t, |mid|)
    ensures MarkedSpan(pre + s + mid + t + post, s, t) == Some((|pre| + |s|, |pre| + |s| + |mid|))
  {
    var text := pre + s + mid + t + post;
    FirstMatch(text, pre, s, mid + t + post);
    FirstMatchAt(text, pre + s, mid, t, post, |pre| + |s|);
    MarkedSpanIs(text, s, t, |pre|, |pre| + |s| + |mid|);
  }

  /** A lookahead that starts with `-`, as both FILE_END markers do. */
  predicate Dashed(t: string) {
    |t| > 0 && t[0] == '-'
  }

  function LettersFrom(text: string, i: nat): (n: nat)
    decreases |text| - i
    ensures i + n <= |text| || (i > |text| && n == 0)
    ensures forall j :: i <= j < i + n ==> 'a' <= text[j] <= 'z'
    ensures i + n < |text| ==> !('a' <= text[i + n] <= 'z')
  {
    if i < |text| && 'a' <= text[i] <= 'z' then 1 + LettersFrom(text, i + 1) else 0
  }

  /** `LettersFrom` counts a run of `n` letters that a non-letter ends. */
  lemma {:induction false} LettersAcross(text: string, i: nat, n: nat)
    requires i + n < |text|
    requires forall j :: i <= j < i + n ==> 'a' <= text[j] <= 'z'
    requires !('a' <= text[i + n] <= 'z')
    decreases n
    ensures LettersFrom(text, i) == n
  {
    if n > 0 {
      LettersAcross(text, i + 1, n - 1);
    }
  }

  /** Where an opening fence "\n```[a-z]*\n" beginning at `p` ends, if
      one begins there. */
  function OpenFenceEnd(text: string, p: nat): (r: Option<nat>)
    ensures r.Some? ==> p + 5 <= r.value <= |text|
    ensures r.Some? ==> forall j :: p <= j < r.value ==> text[j] == '\n' || text[j] == '`' || 'a' <= text[j] <= 'z'
  {
    if OccursAt(text, "\n```", p) then
      var k := p + 4 + LettersFrom(text, p + 4);
      assert forall j :: p <= j < p + 4 ==> text[j] == "\n```"[j - p];
      if k < |text| && text[k] == '\n' then Some(k + 1) else None
    else None
  }

  /** An opening fence that begins at `p` ends before a match of a dashed
      lookahead at or after `p`: no fence character is `-`. */
  lemma EndAfterFence(text: string, t: string, p: nat, e: nat)
    requires Dashed(t) && p <= e && PatternAt(text, t, e)
    ensures OpenFenceEnd(text, p).Some? ==> OpenFenceEnd(text, p).value <= e
  {
    assert text[e] == '-';
  }

  /** The lazy group of `(?:\n```[a-z]*\n)?(.*?)(?:\n```\n)?` between `p`
      and the first lookahead match at `e`: an opening fence at `p` and a
      closing fence ending at `e` are not part of it. The closing fence
      must also start at or after the group's start. */
  function Unfenced(text: string, t: string, p: nat, e: nat): (r: string)
    requires Dashed(t) && p <= e && PatternAt(text, t, e)
    ensures |r| <= e - p
  {
    EndAfterFence(text, t, p, e);
    var g0 := if OpenFenceEnd(text, p).Some? then OpenFenceEnd(text, p).value else p;
    var g1 := if g0 + 5 <= e && OccursAt(text, "\n```\n", e - 5) then e - 5 else e;
    text[g0..g1]
  }

  /** The group of the first match of
      `(?<=START)(?:\n```[a-z]*\n)?(.*?)(?:\n```\n)?(?=END)`, or None when
      `re.search` finds no match. */
  function FileGroup(text: string, filename: string): (r: Option<string>)
  {
    var span := MarkedSpan(text, FileStart(filename), FileEnd(filename));
    if span.None? then None
    else Some(Unfenced(text, FileEnd(filename), span.value.0, span.value.1))
  }

  /** `file_from_openai_response`: the group, stripped; with no match,
      `search` returns None and `[1]` raises. */
  function FileFromResponse(text: string, filename: string): (r: Result<string, Raise>)
    requires RegexPlain(filename)
    ensures r.Err? ==> r.error == Exception("TypeError", "'NoneType' object is not subscriptable")
    ensures r.Ok? ==> Unpadded(r.value)
  {
    match FileGroup(text, filename)
    case None => Err(Exception("TypeError", "'NoneType' object is not subscriptable"))
    case Some(g) => Ok(Strip(g))
  }

  /** `_extract_file_from_gpt_response` of the agents: the text between
      the markers, with no fence handling, stripped; with no match it
      raises ValueError. */
  function ExtractFile(content: string, filename: string): (r: Result<string, Raise>)
    requires RegexPlain(filename)
    ensures r.Err? ==> r.error == Exception("ValueError", "Failed to generate " + filename)
    ensures r.Ok? ==> Unpadded(r.value)
  {
    var span := MarkedSpan(content, FileStart(filename), FileEnd(filename));
    if span.None? then Err(Exception("ValueError", "Failed to generate " + filename))
    else Ok(Strip(content[span.value.0..span.value.1]))
  }

  /** Extraction fails exactly when no START is followed by an END. */
  lemma FileFromResponseFailsIffUnmarked(text: string, filename: string)
    requires RegexPlain(filename)
    ensures FileFromResponse(text, filename).Err? <==> !Marked(text, FileStart(filename), FileEnd(filename))
  {
    MarkedSpanNoneIffUnmarked(text, FileStart(filename), FileEnd(filename));
  }

  /** The agents' extraction fails on exactly the same responses. */
  lemma ExtractFileFailsIffUnmarked(content: string, filename: string)
    requires RegexPlain(filename)
    ensures ExtractFile(content, filename).Err? <==> !Marked(content, FileStart(filename), FileEnd(filename))
    ensures ExtractFile(content, filename).Err? <==> FileFromResponse(content, filename).Err?
  {
    MarkedSpanNoneIffUnmarked(content, FileStart(filename), FileEnd(filename));
  }

  /** An opening fence right after the lookbehind belongs to the content:
      the content then itself opens with one. */
  lemma OpenFenceInContent(text: string, a: string, c: string, rest: string)
    requires text == a + "\n" + c + "\n" + rest
    requires OccursAt(text, "\n```", |a|)
    ensures StartsWith(c, "```")
  {
    var p := |a|;
    var f := text[p..p + 4];
    assert f == "\n```";
    assert text[p + 1] == f[1] == '`' && text[p + 2] == f[2] == '`' && text[p + 3] == f[3] == '`';
    assert text[p + 1 + |c|] == '\n';
    assert |c| >= 3;
    assert c[0] == text[p + 1] && c[1] == text[p + 2] && c[2] == text[p + 3];
    assert c[..3] == "```";
  }

  /** A closing fence right before the lookahead belongs to the content:
      the content, after the newline that precedes it, then ends with one. */
  lemma CloseFenceInContent(text: string, a: string, c: string, rest: string, q: nat)
    requires text == a + "\n" + c + "\n" + rest
    requires 3 <= |c| && q == |a| + |c| - 3
    requires OccursAt(text, "\n```\n", q)
    ensures EndsWith("\n" + c, "\n```")
  {
    var u := "\n" + c;
    var f := text[q..q + 5];
    assert f == "\n```\n";
    assert text == a + u + ("\n" + rest);
    var g := u[|u| - 4..];
    assert g[0] == text[q] == f[0] && g[1] == text[q + 1] == f[1];
    assert g[2] == text[q + 2] == f[2] && g[3] == text[q + 3] == f[3];
    assert g == "\n```";
  }

  /** Content on lines of its own, as the prompts ask for. */
  function Lines(c: string): (r: string)
    ensures |r| == |c| + 2
  {
    "\n" + c + "\n"
  }

  /** Content on lines of its own and without fences is the whole group. */
  lemma UnfencedPlain(text: string, pre: string, s: string, c: string, t: string, post: string, p: nat, e: nat)
    requires text == pre + s + Lines(c) + t + post && p == |pre| + |s| && e == p + |c| + 2
    requires Dashed(t) && PatternAt(text, t, e)
    requires !StartsWith(c, "```") && !EndsWith("\n" + c, "\n```")
    ensures Unfenced(text, t, p, e) == Lines(c)
  {
    assert text == (pre + s) + "\n" + c + "\n" + (t + post);
    if OccursAt(text, "\n```", p) {
      OpenFenceInContent(text, pre + s, c, t + post);
    }
    if p + 5 <= e && OccursAt(text, "\n```\n", e - 5) {
      CloseFenceInContent(text, pre + s, c, t + post, e - 5);
    }
    assert text == (pre + s) + Lines(c) + (t + post);
    assert text[p..e] == Lines(c);
  }

  /** An opening fence with a lower-case language tag at `p`. */
  lemma OpenFenceOf(text: string, p: nat, lang: string)
    requires p + 5 + |lang| <= |text|
    requires text[p..p + 4 + |lang| + 1] == "\n```" + lang + "\n"
    requires forall j :: 0 <= j < |lang| ==> 'a' <= lang[j] <= 'z'
    ensures OpenFenceEnd(text, p) == Some(p + 5 + |lang|)
  {
    var f := text[p..p + 4 + |lang| + 1];
    assert text[p..p + 4] == f[..4] == "\n```";
    forall k | p + 4 <= k < p + 4 + |lang|
      ensures 'a' <= text[k] <= 'z'
    {
      assert text[k] == f[k - p] == lang[k - p - 4];
    }
    assert text[p + 4 + |lang|] == f[4 + |lang|] == '\n';
    LettersAcross(text, p + 4, |lang|);
  }

  /** The group between both fences, once they are found. */
  lemma UnfencedBoth(text: string, t: string, p: nat, g0: nat, e: nat)
    requires Dashed(t) && p <= e && PatternAt(text, t, e)
    requires OpenFenceEnd(text, p) == Some(g0) && g0 + 5 <= e
    requires OccursAt(text, "\n```\n", e - 5)
    ensures Unfenced(text, t, p, e) == text[g0..e - 5]
  {
  }

  /** Content in a fence with a language tag, as the prompts ask for. */
  function Fenced(lang: string, c: string): (r: string)
    ensures |r| == |lang| + |c| + 10
  {
    "\n```" + lang + "\n" + c + "\n```\n"
  }

  /** Where the pieces of a fenced text lie. */
  lemma FencedSlices(text: string, pre: string, s: string, lang: string, c: string, t: string, post: string, p: nat)
    requires text == pre + s + Fenced(lang, c) + t + post && p == |pre| + |s|
    ensures p + |lang| + |c| + 10 <= |text|
    ensures text[p..p + 5 + |lang|] == "\n```" + lang + "\n"
    ensures text[p + 5 + |lang|..p + 5 + |lang| + |c|] == c
    ensures text[p + 5 + |lang| + |c|..p + |lang| + |c| + 10] == "\n```\n"
  {
    assert text == (pre + s) + ("\n```" + lang + "\n") + c + ("\n```\n" + (t + post));
  }

  /** Fenced content is the whole group: both fences are dropped. */
  lemma UnfencedFenced(text: string, t: string, p: nat, e: nat, lang: string, c: string)
    requires e == p + |lang| + |c| + 10 <= |text|
    requires text[p..p + 5 + |lang|] == "\n```" + lang + "\n"
    requires text[p + 5 + |lang|..p + 5 + |lang| + |c|] == c
    requires text[p + 5 + |lang| + |c|..p + |lang| + |c| + 10] == "\n```\n"
    requires forall j :: 0 <= j < |lang| ==> 'a' <= lang[j] <= 'z'
    requires Dashed(t) && PatternAt(text, t, e)
    ensures Unfenced(text, t, p, e) == c
  {
    OpenFenceOf(text, p, lang);
    UnfencedBoth(text, t, p, p + 5 + |lang|, e);
  }

  /** The stripped group, given the group. */
  lemma FileFromResponseIs(text: string, filename: string, g: string)
    requires RegexPlain(filename) && FileGroup(text, filename) == Some(g)
    ensures FileFromResponse(text, filename) == Ok(Strip(g))
  {
  }

  /** The group, given the span. */
  lemma FileGroupIs(text: string, filename: string, p: nat, e: nat)
    requires MarkedSpan(text, FileStart(filename), FileEnd(filename)) == Some((p, e))
    ensures Dashed(FileEnd(filename)) && PatternAt(text, FileEnd(filename), e) && p <= e
    ensures FileGroup(text, filename) == Some(Unfenced(text, FileEnd(filename), p, e))
  {
  }

  /** The group of a response that puts `mid` between the markers, the
      markers being the first matches of their patterns. */
  lemma FileGroupOf(text: string, pre: string, mid: string, post: string, filename: string, p: nat, e: nat)
    requires text == pre + FileStart(filename) + mid + FileEnd(filename) + post
    requires p == |pre| + |FileStart(filename)| && e == p + |mid|
    requires NoMatchBefore(pre + FileStart(filename), FileStart(filename), |pre|)
    requires NoMatchBefore(mid + FileEnd(filename), FileEnd(filename), |mid|)
    ensures Dashed(FileEnd(filename)) && PatternAt(text, FileEnd(filename), e) && p <= e
    ensures FileGroup(text, filename) == Some(Unfenced(text, FileEnd(filename), p, e))
  {
    MarkedSpanOf(pre, FileStart(filename), mid, FileEnd(filename), post);
    FileGroupIs(text, filename, p, e);
  }

  /** Plain round trip: content between the markers, on lines of its own
      and without fences, is what `file_from_openai_response` returns,
      stripped, provided the markers are the first matches of their
      patterns. */
  lemma FileFromResponsePlain(pre: string, c: string, post: string, filename: string)
    requires RegexPlain(filename)
    requires NoMatchBefore(pre + FileStart(filename), FileStart(filename), |pre|)
    requires NoMatchBefore(Lines(c) + FileEnd(filename), FileEnd(filename), |Lines(c)|)
    requires !StartsWith(c, "```") && !EndsWith("\n" + c, "\n```")
    ensures FileFromResponse(pre + FileStart(filename) + Lines(c) + FileEnd(filename) + post, filename)
      == Ok(Strip(c))
  {
    var s, t := FileStart(filename), FileEnd(filename);
    var text := pre + s + Lines(c) + t + post;
    var p := |pre| + |s|;
    var e := p + |Lines(c)|;
    FileGroupOf(text, pre, Lines(c), post, filename, p, e);
    UnfencedPlain(text, pre, s, c, t, post, p, e);
    StripAroundNewlines(c);
    FileFromResponseIs(text, filename, Lines(c));
  }

  /** Fenced round trip: a fence with a lower-case language tag around
      the content is dropped, and the content is returned stripped. */
  lemma FileFromResponseFenced(pre: string, lang: string, c: string, post: string, filename: string)
    requires RegexPlain(filename)
    requires forall j :: 0 <= j < |lang| ==> 'a' <= lang[j] <= 'z'
    requires NoMatchBefore(pre + FileStart(filename), FileStart(filename), |pre|)
    requires NoMatchBefore(Fenced(lang, c) + FileEnd(filename), FileEnd(filename), |Fenced(lang, c)|)
    ensures FileFromResponse(pre + FileStart(filename) + Fenced(lang, c) + FileEnd(filename) + post, filename)
      == Ok(Strip(c))
  {
    var s, t := FileStart(filename), FileEnd(filename);
    var text := pre + s + Fenced(lang, c) + t + post;
    var p := |pre| + |s|;
    var e := p + |Fenced(lang, c)|;
    FileGroupOf(text, pre, Fenced(lang, c), post, filename, p, e);
    FencedSlices(text, pre, s, lang, c, t, post, p);
    UnfencedFenced(text, t, p, e, lang, c);
    FileFromResponseIs(text, filename, c);
  }

  /** The agents' round trip: whatever lies between the markers comes back
      stripped, fences included. */
  lemma ExtractFileRoundTrip(pre: string, c: string, post: string, filename: string)
    requires RegexPlain(filename)
    requires NoMatchBefore(pre + FileStart(filename), FileStart(filename), |pre|)
    requires NoMatchBefore(c + FileEnd(filename), FileEnd(filename), |c|)
    ensures ExtractFile(pre + FileStart(filename) + c + FileEnd(filename) + post, filename) == Ok(Strip(c))
  {
    var s, t := FileStart(filename), FileEnd(filename);
    var text := pre + s + c + t + post;
    MarkedSpanOf(pre, s, c, t, post);
    assert text == (pre + s) + c + (t + post);
    assert text[|pre| + |s|..|pre| + |s| + |c|] == c;
  }

  /** The unescaped `.` is a wildcard: a marker for `cog_yaml` is taken
      as the marker for `cog.yaml`. */
  lemma DotMatchesAnyChar()
    ensures PatternAt(FileStart("cog_yaml"), FileStart("cog.yaml"), 0)
    ensures FileStart("cog_yaml") != FileStart("cog.yaml")
  {
    assert FileStart("cog_yaml")[18] != FileStart("cog.yaml")[18];
  }
}
