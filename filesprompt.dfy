/** The prompt that asks for `predict.py` and `cog.yaml` (`files_prompt` in
    autocog/autocog.py): the instruction text, then each file wrapped in
    its markers, the requirements and the README first. The file that
    would push the prompt past `max_length` is cut, and nothing follows
    it. The instruction text is a parameter here: only its length
    matters. */
module FilesPrompt {
  import opened Wrappers
  import opened Strings
  import opened Markers

  /** One file offered to the model: its path relative to the repository
      and the text read from it. */
  datatype Entry = Entry(name: string, contents: string)

  /** A file wrapped in its markers, followed by a blank line. */
  function Block(name: string, contents: string): string {
    FileStart(name) + "\n" + contents + FileEnd(name) + "\n\n"
  }

  /** The characters a block adds around the file's contents. */
  function Overhead(name: string): nat {
    2 * |name| + 31
  }

  lemma BlockLength(name: string, contents: string)
    ensures |Block(name, contents)| == |contents| + Overhead(name)
  {
  }

  /** The marker text of all blocks together. */
  function TotalOverhead(entries: seq<Entry>): nat {
    if entries == [] then 0 else Overhead(entries[0].name) + TotalOverhead(entries[1..])
  }

  /** The blocks of all entries, untruncated, in order. */
  function Blocks(entries: seq<Entry>): string {
    if entries == [] then [] else Block(entries[0].name, entries[0].contents) + Blocks(entries[1..])
  }

  /** The list of paths after the two `insert(0, ...)` calls: requirements
      first, then the README, then the paths given. The caller's list is
      changed in place, so a second call inserts them again. */
  function WithProjectFiles(readme: Option<string>, requirements: Option<string>, paths: seq<Entry>): (r: seq<Entry>)
    ensures |r| == |paths| + (if readme.Some? then 1 else 0) + (if requirements.Some? then 1 else 0)
    ensures r[|r| - |paths|..] == paths
    ensures requirements.Some? ==> r[0] == Entry("requirements.txt", requirements.value)
    ensures readme.Some? ==> r[if requirements.Some? then 1 else 0] == Entry("README.md", readme.value)
  {
    var withReadme := if readme.Some? then [Entry("README.md", readme.value)] + paths else paths;
    if requirements.Some? then [Entry("requirements.txt", requirements.value)] + withReadme else withReadme
  }

  /** The loop over the entries from a prompt built so far, as written:
      a file whose text would take the prompt past `maxLength` is cut to
      `contents[: maxLength - len(prompt)]`, and the prompt is returned
      right after it. */
  function PromptFrom(prompt: string, entries: seq<Entry>, maxLength: int): (r: string)
    decreases |entries|
  {
    if entries == [] then prompt
    else
      var e := entries[0];
      if |prompt| + |e.contents| > maxLength then
        prompt + Block(e.name, Take(e.contents, maxLength - |prompt|))
      else PromptFrom(prompt + Block(e.name, e.contents), entries[1..], maxLength)
  }

  /** The prompt built so far is kept as a prefix. */
  lemma {:induction false} PromptKeepsPrefix(prompt: string, entries: seq<Entry>, maxLength: int)
    decreases |entries|
    ensures prompt <= PromptFrom(prompt, entries, maxLength)
  {
    if entries != [] && |prompt| + |entries[0].contents| <= maxLength {
      var e := entries[0];
      var next := prompt + Block(e.name, e.contents);
      PromptKeepsPrefix(next, entries[1..], maxLength);
      assert prompt <= next;
    }
  }

  /** When everything fits, every file is sent whole, in order. */
  lemma {:induction false} PromptWhole(prompt: string, entries: seq<Entry>, maxLength: int)
    requires |prompt| + |Blocks(entries)| <= maxLength
    decreases |entries|
    ensures PromptFrom(prompt, entries, maxLength) == prompt + Blocks(entries)
  {
    if entries != [] {
      var e := entries[0];
      var next := prompt + Block(e.name, e.contents);
      BlockLength(e.name, e.contents);
      assert Blocks(entries) == Block(e.name, e.contents) + Blocks(entries[1..]);
      PromptWhole(next, entries[1..], maxLength);
    }
  }

  /** `files_prompt(repo_path, paths, max_length)`, with the files read
      already: the prompt, and the caller's list as the inserts leave it. */
  method BuildFilesPrompt(intro: string, readme: Option<string>, requirements: Option<string>,
                          paths: seq<Entry>, maxLength: int)
    returns (prompt: string, pathsAfter: seq<Entry>)
    ensures pathsAfter == WithProjectFiles(readme, requirements, paths)
    ensures prompt == PromptFrom(intro, pathsAfter, maxLength)
  {
    pathsAfter := paths;
    if readme.Some? {
      pathsAfter := [Entry("README.md", readme.value)] + pathsAfter;
    }
    if requirements.Some? {
      pathsAfter := [Entry("requirements.txt", requirements.value)] + pathsAfter;
    }
    prompt := intro;
    for i := 0 to |pathsAfter|
      invariant PromptFrom(intro, pathsAfter, maxLength) == PromptFrom(prompt, pathsAfter[i..], maxLength)
    {
      var e := pathsAfter[i];
      var contents := e.contents;
      var isTruncated := false;
      if |prompt + contents| > maxLength {
        contents := Take(contents, maxLength - |prompt|);
        isTruncated := true;
      }
      assert pathsAfter[i..][0] == e && pathsAfter[i..][1..] == pathsAfter[i + 1..];
      prompt := prompt + Block(e.name, contents);
      if isTruncated {
        return;
      }
    }
  }

  /** As written, the cut can leave far more than `maxLength` characters of
      file text. When the instruction and the first file fill the budget
      exactly, the first file is sent whole, and its markers take the
      prompt past `maxLength`. `maxLength - len(prompt)` is then minus
      the first file's markers, and the slice keeps all but that many
      characters of the second file. So the prompt exceeds the budget
      plus the markers whenever the second file is longer than the first
      file's markers. */
  lemma PromptOverrun(intro: string, n1: string, c1: string, n2: string, c2: string, maxLength: int)
    requires |intro| + |c1| == maxLength && |c2| > Overhead(n1)
    ensures var entries := [Entry(n1, c1), Entry(n2, c2)];
      |PromptFrom(intro, entries, maxLength)| == maxLength + Overhead(n2) + |c2| > maxLength + TotalOverhead(entries)
  {
    var entries := [Entry(n1, c1), Entry(n2, c2)];
    var first := intro + Block(n1, c1);
    BlockLength(n1, c1);
    assert entries[1..] == [Entry(n2, c2)] && entries[1..][1..] == [];
    assert PromptFrom(intro, entries, maxLength) == PromptFrom(first, entries[1..], maxLength);
    var cut := Take(c2, maxLength - |first|);
    assert |cut| == |c2| - Overhead(n1);
    BlockLength(n2, cut);
    assert PromptFrom(first, entries[1..], maxLength) == first + Block(n2, cut);
    assert TotalOverhead(entries) == Overhead(n1) + Overhead(n2) by {
      assert TotalOverhead(entries[1..]) == Overhead(n2) + TotalOverhead(entries[1..][1..]);
    }
  }

  /** The overrun with the program's own numbers: the 286-character
      instruction, the smallest `max_length` of `generate_files` (10000),
      a `requirements.txt` of 9714 characters and a `README.md` longer
      than the 63 characters of the first file's markers. */
  lemma PromptOverrunInProgram(intro: string, requirements: string, readme: string)
    requires |intro| == 286 && |requirements| == 9714 && |readme| > 63
    ensures var entries := WithProjectFiles(Some(readme), Some(requirements), []);
      |PromptFrom(intro, entries, 10000)| == 10049 + |readme| > 10000 + TotalOverhead(entries)
  {
    var entries := WithProjectFiles(Some(readme), Some(requirements), []);
    assert entries == [Entry("requirements.txt", requirements), Entry("README.md", readme)];
    PromptOverrun(intro, "requirements.txt", requirements, "README.md", readme, 10000);
  }

  /** The evident intent: the file text is cut to what is left of the
      budget, and to nothing when none is left. */
  function CappedPromptFrom(prompt: string, entries: seq<Entry>, maxLength: int): (r: string)
    decreases |entries|
  {
    if entries == [] then prompt
    else
      var e := entries[0];
      if |prompt| + |e.contents| > maxLength then
        prompt + Block(e.name, Take(e.contents, if maxLength - |prompt| < 0 then 0 else maxLength - |prompt|))
      else CappedPromptFrom(prompt + Block(e.name, e.contents), entries[1..], maxLength)
  }

  /** With the cap, the file text in the prompt never exceeds the budget:
      the prompt is at most `maxLength` plus the markers, for a prompt
      that had `used` characters of markers so far. */
  lemma {:induction false} CappedPromptWithin(prompt: string, used: nat, entries: seq<Entry>, maxLength: int)
    requires |prompt| <= maxLength + used
    decreases |entries|
    ensures |CappedPromptFrom(prompt, entries, maxLength)| <= maxLength + used + TotalOverhead(entries)
  {
    if entries != [] {
      var e := entries[0];
      if |prompt| + |e.contents| > maxLength {
        var k := if maxLength - |prompt| < 0 then 0 else maxLength - |prompt|;
        BlockLength(e.name, Take(e.contents, k));
      } else {
        BlockLength(e.name, e.contents);
        CappedPromptWithin(prompt + Block(e.name, e.contents), used + Overhead(e.name), entries[1..], maxLength);
      }
    }
  }

  /** The corrected prompt from the instruction text stays within the budget
      plus the markers of the files it names. */
  lemma CappedPromptBound(intro: string, entries: seq<Entry>, maxLength: int)
    requires |intro| <= maxLength
    ensures |CappedPromptFrom(intro, entries, maxLength)| <= maxLength + TotalOverhead(entries)
  {
    CappedPromptWithin(intro, 0, entries, maxLength);
  }
}
