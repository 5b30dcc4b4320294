/** The `cog` helpers of autocog/cog.py: `predict` runs a command and
    judges it by its exit code and its stderr, `write_files` writes the
    files of a Cog model, and `add_lines_to_dotfile` merges lines into an
    ignore file. The process is given as the decoded lines of its stderr
    and the exit code `wait()` reports; the working directory is a map
    from file names to their text. */
module CogCli {
  import opened Wrappers
  import opened Strings

  const SetupFailedMarker: string := "Model setup failed"
  const TracebackMarker: string := "Traceback (most recent call last)"

  /** The lines `predict` reads: all of them, or those up to and including
      the first that holds `marker`, after which the process is killed. */
  function Captured(lines: seq<string>, marker: string): seq<string> {
    if lines == [] then []
    else if Contains(lines[0], marker) then [lines[0]]
    else [lines[0]] + Captured(lines[1..], marker)
  }

  /** What is read is a prefix of the lines; no line but the last holds the
      marker; and it stops early only at a line that holds it. */
  lemma {:induction false} CapturedStops(lines: seq<string>, marker: string)
    ensures var r := Captured(lines, marker);
      r <= lines &&
      (forall i :: 0 <= i < |r| - 1 ==> !Contains(r[i], marker)) &&
      (r == lines || (r != [] && Contains(r[|r| - 1], marker))) &&
      ((forall i :: 0 <= i < |lines| ==> !Contains(lines[i], marker)) ==> r == lines)
  {
    if lines != [] && !Contains(lines[0], marker) {
      var rest := lines[1..];
      CapturedStops(rest, marker);
      var r := Captured(lines, marker);
      assert r == [lines[0]] + Captured(rest, marker);
      assert lines == [lines[0]] + rest;
      forall i | 0 <= i < |r| - 1
        ensures !Contains(r[i], marker)
      {
        if i > 0 {
          assert r[i] == Captured(rest, marker)[i - 1];
        }
      }
      if forall i :: 0 <= i < |lines| ==> !Contains(lines[i], marker) {
        forall i | 0 <= i < |rest|
          ensures !Contains(rest[i], marker)
        {
          assert rest[i] == lines[i + 1];
        }
      }
    }
  }

  /** Lines without the marker are all kept, and reading goes on after
      them. */
  lemma {:induction false} CapturedAppend(a: seq<string>, b: seq<string>, marker: string)
    requires forall j :: 0 <= j < |a| ==> !Contains(a[j], marker)
    ensures Captured(a + b, marker) == a + Captured(b, marker)
  {
    if a != [] {
      assert !Contains((a + b)[0], marker);
      assert (a + b)[1..] == a[1..] + b;
      forall j | 0 <= j < |a| - 1
        ensures !Contains(a[1..][j], marker)
      {
        assert a[1..][j] == a[j + 1];
      }
      CapturedAppend(a[1..], b, marker);
      assert Captured(a + b, marker) == [a[0]] + Captured(a[1..] + b, marker);
      assert a == [a[0]] + a[1..];
    } else {
      assert a + b == b;
    }
  }

  /** `predict(predict_command)`: stderr is every line read, in order, up
      to the failed setup if one is reported, and the run succeeds exactly
      when the exit code is 0 and stderr holds no traceback; stderr is
      returned either way. */
  method Predict(lines: seq<string>, returncode: int) returns (ok: bool, stderr: string)
    ensures stderr == Concat(Captured(lines, SetupFailedMarker))
    ensures ok <==> returncode == 0 && !Contains(stderr, TracebackMarker)
  {
    stderr := "";
    var i := 0;
    while i < |lines|
      invariant 0 <= i <= |lines|
      invariant forall j :: 0 <= j < i ==> !Contains(lines[j], SetupFailedMarker)
      invariant stderr == Concat(lines[..i])
    {
      var line := lines[i];
      ConcatSnoc(lines[..i], line);
      assert lines[..i + 1] == lines[..i] + [line];
      stderr := stderr + line;
      if Contains(line, SetupFailedMarker) {
        assert lines == lines[..i] + lines[i..];
        CapturedAppend(lines[..i], lines[i..], SetupFailedMarker);
        assert Captured(lines[i..], SetupFailedMarker) == [line];
        assert Captured(lines, SetupFailedMarker) == lines[..i] + [line];
        break;
      }
      i := i + 1;
    }
    if i == |lines| {
      assert lines == lines[..i] + [];
      CapturedAppend(lines[..i], [], SetupFailedMarker);
      assert Captured([], SetupFailedMarker) == [];
      assert Captured(lines, SetupFailedMarker) == lines[..i];
    }
    ok := returncode == 0 && !Contains(stderr, TracebackMarker);
  }

  /** The lines of `toAdd` that `existing` lacks, in order; a line given
      twice is kept twice. */
  function Missing(existing: seq<string>, toAdd: seq<string>): (r: seq<string>)
    ensures forall l :: l in r <==> l in toAdd && l !in existing
    ensures |r| <= |toAdd|
  {
    if toAdd == [] then []
    else
      var rest := Missing(existing, toAdd[1..]);
      assert forall l :: l in toAdd <==> l == toAdd[0] || l in toAdd[1..];
      if toAdd[0] !in existing then [toAdd[0]] + rest else rest
  }

  /** `Missing` is the order-preserving filter of the comprehension: it
      works line by line, keeping a line exactly when `existing` lacks
      it, and the kept lines of two parts follow each other. */
  lemma {:induction false} MissingAppend(existing: seq<string>, a: seq<string>, b: seq<string>)
    decreases |a|
    ensures Missing(existing, a + b) == Missing(existing, a) + Missing(existing, b)
    ensures forall x :: Missing(existing, [x]) == if x in existing then [] else [x]
  {
    if a == [] {
      assert a + b == b;
    } else {
      assert (a + b)[0] == a[0] && (a + b)[1..] == a[1..] + b;
      MissingAppend(existing, a[1..], b);
      if a[0] !in existing {
        ConsAssoc(a[0], Missing(existing, a[1..]), Missing(existing, b));
      }
    }
    forall x ensures Missing(existing, [x]) == if x in existing then [] else [x] {
      assert [x][1..] == [];
    }
  }

  /** The file `add_lines_to_dotfile` leaves, from the file there was (None
      when absent). A newline goes before the new lines when the last line
      of the file is not empty. */
  function Dotfile(file: Option<string>, toAdd: seq<string>): Option<string> {
    var existing := if file.Some? then SplitLines(file.value) else [];
    var added := Missing(existing, toAdd);
    if added == [] then file
    else if file.Some? then Some(file.value + Separator(existing) + Written(added))
    else Some(Written(added))
  }

  /** What goes before the new lines of an existing file. */
  function Separator(existing: seq<string>): string {
    if existing != [] && existing[|existing| - 1] != [] then "\n" else ""
  }

  /** The text of `lines` written one per line. */
  function Written(lines: seq<string>): string {
    Join(lines, "\n") + "\n"
  }

  /** Lines that can be written and read back as lines. */
  predicate LineText(lines: seq<string>) {
    forall i, j :: 0 <= i < |lines| && 0 <= j < |lines[i]| ==> !IsLineBoundary(lines[i][j])
  }

  /** After the merge the file keeps its text as a prefix and its lines,
      and holds every line to add, when those are nonempty and free of
      line boundaries. */
  lemma DotfileHasLines(file: Option<string>, toAdd: seq<string>)
    requires forall i :: 0 <= i < |toAdd| ==> toAdd[i] != []
    requires LineText(toAdd)
    ensures var after := Dotfile(file, toAdd);
      (file.Some? ==> after.Some? && file.value <= after.value && SplitLines(file.value) <= SplitLines(after.value)) &&
      (after.Some? ==> forall l :: l in toAdd ==> l in SplitLines(after.value))
  {
    if file.Some? {
      ExistingFileHasLines(file.value, toAdd);
    } else {
      var added := Missing([], toAdd);
      if added != [] {
        MissingLines([], toAdd);
        SplitJoined(added);
        AllThere([], toAdd, added);
      }
    }
  }

  /** The empty line the separator brings into the lines of `p`: one when
      the separator is written after a final terminator other than `\r`. */
  function SeparatorLines(p: string): seq<string> {
    var existing := SplitLines(p);
    if existing != [] && existing[|existing| - 1] != [] then NewlineExtra(p) else []
  }

  /** The lines of the merged file, exactly: the old lines, the empty line
      of the separator if any, then the missing lines in order. */
  lemma DotfileLines(file: Option<string>, toAdd: seq<string>)
    requires forall i :: 0 <= i < |toAdd| ==> toAdd[i] != []
    requires LineText(toAdd)
    ensures var existing := if file.Some? then SplitLines(file.value) else [];
      var added := Missing(existing, toAdd);
      var after := Dotfile(file, toAdd);
      (added == [] ==> after == file) &&
      (added != [] && file.None? ==> after.Some? && SplitLines(after.value) == added) &&
      (added != [] && file.Some? ==>
        after.Some? && SplitLines(after.value) == existing + SeparatorLines(file.value) + added)
  {
    if file.Some? {
      ExistingDotfileLines(file.value, toAdd);
    } else {
      var added := Missing([], toAdd);
      if added != [] {
        MissingLines([], toAdd);
        SplitJoined(added);
      }
    }
  }

  lemma ExistingDotfileLines(p: string, toAdd: seq<string>)
    requires forall i :: 0 <= i < |toAdd| ==> toAdd[i] != []
    requires LineText(toAdd)
    ensures var existing := SplitLines(p);
      var added := Missing(existing, toAdd);
      added != [] ==>
        (Dotfile(Some(p), toAdd).Some? &&
         SplitLines(Dotfile(Some(p), toAdd).value) == existing + SeparatorLines(p) + added)
  {
    var added := Missing(SplitLines(p), toAdd);
    if added != [] {
      MissingLines(SplitLines(p), toAdd);
      SeparatedLines(p, added);
    }
  }

  /** The lines after the separator and the new lines are written. */
  lemma SeparatedLines(p: string, added: seq<string>)
    requires added != [] && added[0] != [] && LineText(added)
    ensures SplitLines(p + Separator(SplitLines(p)) + Written(added)) == SplitLines(p) + SeparatorLines(p) + added
  {
    var existing := SplitLines(p);
    if existing != [] && existing[|existing| - 1] != [] {
      NewlineSeparatedLines(p, added);
    } else {
      UnseparatedLines(p, added);
    }
  }

  lemma UnseparatedLines(p: string, added: seq<string>)
    requires added != [] && added[0] != [] && LineText(added)
    requires var existing := SplitLines(p); existing == [] || existing[|existing| - 1] == []
    ensures SplitLines(p + "" + Written(added)) == SplitLines(p) + [] + added
  {
    AppendDirectly(p, added);
    NoSeparator(p, Written(added));
  }

  lemma NewlineSeparatedLines(p: string, added: seq<string>)
    requires added != [] && added[0] != [] && LineText(added)
    ensures SplitLines(p + "\n" + Written(added)) == SplitLines(p) + NewlineExtra(p) + added
  {
    AppendAfterNewline(p, added);
    SplitLinesNewline(p);
  }

  /** The same for a file that is there. */
  lemma ExistingFileHasLines(p: string, toAdd: seq<string>)
    requires forall i :: 0 <= i < |toAdd| ==> toAdd[i] != []
    requires LineText(toAdd)
    ensures var after := Dotfile(Some(p), toAdd).value;
      p <= after && SplitLines(p) <= SplitLines(after) && forall l :: l in toAdd ==> l in SplitLines(after)
  {
    var existing := SplitLines(p);
    if Missing(existing, toAdd) != [] {
      ExistingFileGrows(p, toAdd);
    } else {
      assert Dotfile(Some(p), toAdd) == Some(p);
      AllThere(existing, toAdd, existing);
    }
  }

  /** The same when some lines are missing. */
  lemma ExistingFileGrows(p: string, toAdd: seq<string>)
    requires forall i :: 0 <= i < |toAdd| ==> toAdd[i] != []
    requires LineText(toAdd)
    requires Missing(SplitLines(p), toAdd) != []
    ensures var after := Dotfile(Some(p), toAdd).value;
      p <= after && SplitLines(p) <= SplitLines(after) && forall l :: l in toAdd ==> l in SplitLines(after)
  {
    var existing := SplitLines(p);
    var added := Missing(existing, toAdd);
    MissingLines(existing, toAdd);
    var sep := Separator(existing);
    var after := p + sep + Written(added);
    assert Dotfile(Some(p), toAdd) == Some(after);
    AppendedLines(p, added);
    assert p <= after;
    AllThere(existing, toAdd, SplitLines(after));
  }

  /** Every line to add is in a text whose lines start with the existing
      ones and hold the missing ones. */
  lemma AllThere(existing: seq<string>, toAdd: seq<string>, after: seq<string>)
    requires existing <= after
    requires forall l :: l in Missing(existing, toAdd) ==> l in after
    ensures forall l :: l in toAdd ==> l in after
  {
    forall l | l in toAdd
      ensures l in after
    {
      if l in existing {
        var k :| 0 <= k < |existing| && existing[k] == l;
        assert after[k] == l;
      }
    }
  }

  /** The missing lines are lines as the ones to add are. */
  lemma MissingLines(existing: seq<string>, toAdd: seq<string>)
    requires forall i :: 0 <= i < |toAdd| ==> toAdd[i] != []
    requires LineText(toAdd)
    ensures var added := Missing(existing, toAdd);
      (forall i :: 0 <= i < |added| ==> added[i] != []) && LineText(added)
  {
    var added := Missing(existing, toAdd);
    forall i | 0 <= i < |added|
      ensures added[i] != [] && forall j :: 0 <= j < |added[i]| ==> !IsLineBoundary(added[i][j])
    {
      assert added[i] in toAdd;
      var k :| 0 <= k < |toAdd| && toAdd[k] == added[i];
    }
  }

  /** Appending lines to an existing file, after a newline when its last
      line is not empty, keeps its lines and ends with the new ones. */
  lemma AppendedLines(p: string, added: seq<string>)
    requires added != [] && added[0] != [] && LineText(added)
    ensures var existing := SplitLines(p);
      var sep := Separator(existing);
      var after := SplitLines(p + sep + Written(added));
      existing <= after && (forall l :: l in added ==> l in after)
  {
    SeparatedLines(p, added);
    Between(SplitLines(p), SeparatorLines(p), added);
  }

  lemma Between(x: seq<string>, y: seq<string>, z: seq<string>)
    ensures x <= x + y + z && forall l :: l in z ==> l in x + y + z
  {
  }

  /** After a newline the new lines follow those of `p + "\n"`. */
  lemma AppendAfterNewline(p: string, added: seq<string>)
    requires added != [] && added[0] != [] && LineText(added)
    ensures SplitLines(p + "\n" + Written(added)) == SplitLines(p + "\n") + added
  {
    SplitJoined(added);
    JoinStart(added);
    SplitLinesAppend(p + "\n", Written(added));
  }

  /** A file that is empty or ends with an empty line takes the new lines
      as they are. */
  lemma AppendDirectly(p: string, added: seq<string>)
    requires added != [] && added[0] != [] && LineText(added)
    requires var existing := SplitLines(p); existing == [] || existing[|existing| - 1] == []
    ensures SplitLines(p + Written(added)) == SplitLines(p) + added
  {
    SplitJoined(added);
    JoinStart(added);
    if p != [] {
      LastEmptyLine(p);
    }
    SplitLinesAppend(p, Written(added));
  }

  lemma NoSeparator(p: string, t: string)
    ensures p + "" + t == p + t
  {
  }

  /** The joined lines start with the first line's first character. */
  lemma JoinStart(lines: seq<string>)
    requires lines != [] && lines[0] != []
    ensures var t := Written(lines); t != [] && t[0] == lines[0][0]
  {
  }

  /** Merging the same lines twice changes nothing the second time. */
  lemma DotfileIdempotent(file: Option<string>, toAdd: seq<string>)
    requires forall i :: 0 <= i < |toAdd| ==> toAdd[i] != []
    requires LineText(toAdd)
    ensures Dotfile(Dotfile(file, toAdd), toAdd) == Dotfile(file, toAdd)
  {
    DotfileHasLines(file, toAdd);
    var after := Dotfile(file, toAdd);
    if after.Some? {
      NothingMissing(SplitLines(after.value), toAdd);
    }
  }

  /** Nothing is missing when every line is there. */
  lemma {:induction false} NothingMissing(existing: seq<string>, toAdd: seq<string>)
    requires forall l :: l in toAdd ==> l in existing
    ensures Missing(existing, toAdd) == []
  {
    if toAdd != [] {
      assert toAdd[0] in toAdd;
      NothingMissing(existing, toAdd[1..]);
    }
  }

  /** The separator test looks at the last line, not at the final newline: a file that
      already ends with one gains a blank line. */
  lemma TrailingNewlineGainsBlankLine()
    ensures Dotfile(Some("x\n"), [".cog"]) == Some("x\n\n.cog\n")
  {
    var p := "x\n";
    assert p[1..] == "\n";
    assert FirstBoundary(p[1..]) == 0;
    assert FirstBoundary(p) == 1;
    assert p[..1] == "x" && p[2..] == [];
    SplitLinesCons(p, 1, 1, "x", []);
    assert Missing(["x"], [".cog"]) == [".cog"] by {
      assert ".cog" != "x";
    }
    assert SplitLines(p) == ["x"];
    assert Written([".cog"]) == ".cog\n";
    assert p + "\n" + ".cog\n" == "x\n\n.cog\n";
  }

  /** A value of the generated `cog.yaml`. */
  datatype Value = Flag(flag: bool) | Text(text: string) | Texts(texts: seq<string>) | Section(entries: seq<Entry>)

  datatype Entry = Entry(key: string, value: Value)

  /** The value under `key`, if any. */
  function Get(entries: seq<Entry>, key: string): (r: Option<Value>)
    ensures r.None? <==> forall i :: 0 <= i < |entries| ==> entries[i].key != key
  {
    if entries == [] then None
    else if entries[0].key == key then Some(entries[0].value)
    else Get(entries[1..], key)
  }

  /** The configuration `write_files` dumps to `cog.yaml`. */
  function CogConfig(gpu: bool, pythonVersion: string, systemPackages: seq<string>,
                     className: string, cuda: Option<string>): seq<Entry>
  {
    var base := [Entry("gpu", Flag(gpu)), Entry("python_version", Text(pythonVersion)),
                 Entry("python_requirements", Text("cog_requirements.txt"))];
    var withCuda := if cuda.Some? then base + [Entry("cuda", Text(cuda.value))] else base;
    var build := if systemPackages != [] then withCuda + [Entry("system_packages", Texts(systemPackages))] else withCuda;
    [Entry("build", Section(build)), Entry("predict", Text("predict.py:" + className))]
  }

  /** A `build` section then the `predict` entry naming the class; the
      build has the GPU flag, the Python version and the requirements
      file, a CUDA version exactly when one is given, and system packages
      exactly when there are some. */
  lemma CogConfigKeys(gpu: bool, pythonVersion: string, systemPackages: seq<string>,
                      className: string, cuda: Option<string>)
    ensures var r := CogConfig(gpu, pythonVersion, systemPackages, className, cuda);
      |r| == 2 && r[0].key == "build" && r[1] == Entry("predict", Text("predict.py:" + className)) &&
      r[0].value.Section? &&
      var build := r[0].value.entries;
      Get(build, "gpu") == Some(Flag(gpu)) &&
      Get(build, "python_version") == Some(Text(pythonVersion)) &&
      Get(build, "python_requirements") == Some(Text("cog_requirements.txt")) &&
      Get(build, "cuda") == (if cuda.Some? then Some(Text(cuda.value)) else None) &&
      Get(build, "system_packages") == (if systemPackages != [] then Some(Texts(systemPackages)) else None)
  {
    var base := [Entry("gpu", Flag(gpu)), Entry("python_version", Text(pythonVersion)),
                 Entry("python_requirements", Text("cog_requirements.txt"))];
    var withCuda := if cuda.Some? then base + [Entry("cuda", Text(cuda.value))] else base;
    var build := if systemPackages != [] then withCuda + [Entry("system_packages", Texts(systemPackages))] else withCuda;
    assert base[1..][1..] == [Entry("python_requirements", Text("cog_requirements.txt"))];
    assert Get(base, "gpu") == Some(Flag(gpu));
    assert Get(base, "python_version") == Some(Text(pythonVersion));
    assert Get(base, "python_requirements") == Get(base[1..], "python_requirements") == Get(base[1..][1..], "python_requirements");
    assert Get(base, "python_requirements") == Some(Text("cog_requirements.txt"));
    assert Get(base, "cuda") == None && Get(base, "system_packages") == None;
    if cuda.Some? {
      GetSnoc(base, Entry("cuda", Text(cuda.value)), "gpu");
      GetSnoc(base, Entry("cuda", Text(cuda.value)), "python_version");
      GetSnoc(base, Entry("cuda", Text(cuda.value)), "python_requirements");
      GetSnoc(base, Entry("cuda", Text(cuda.value)), "cuda");
      GetSnoc(base, Entry("cuda", Text(cuda.value)), "system_packages");
    }
    if systemPackages != [] {
      var e := Entry("system_packages", Texts(systemPackages));
      GetSnoc(withCuda, e, "gpu");
      GetSnoc(withCuda, e, "python_version");
      GetSnoc(withCuda, e, "python_requirements");
      GetSnoc(withCuda, e, "cuda");
      GetSnoc(withCuda, e, "system_packages");
    }
  }

  /** A key is looked up in the earlier entries first. */
  lemma {:induction false} GetSnoc(a: seq<Entry>, e: Entry, key: string)
    ensures Get(a + [e], key) == if Get(a, key).Some? then Get(a, key) else if e.key == key then Some(e.value) else None
  {
    if a != [] {
      assert (a + [e])[1..] == a[1..] + [e];
      GetSnoc(a[1..], e, key);
    }
  }

  const DockerIgnoreLines: seq<string> := ["**/.git", "**/.github", "**/.gitignore", ".python-version",
    "__pycache__", ".mypy_cache", ".pytest_cache", ".ruff_cache", "/venv"]

  /** The file `name` of a directory, if there is one. */
  function FileAt(files: map<string, string>, name: string): Option<string> {
    if name in files then Some(files[name]) else None
  }

  /** The directory after `add_lines_to_dotfile(name, toAdd)`. */
  function WithDotfile(files: map<string, string>, name: string, toAdd: seq<string>): map<string, string> {
    match Dotfile(FileAt(files, name), toAdd)
    case Some(text) => files[name := text]
    case None => files
  }

  /** The working directory the commands run in. */
  class Workdir {
    var files: map<string, string>

    constructor (files: map<string, string>)
      ensures this.files == files
    {
      this.files := files;
    }

    /** `add_lines_to_dotfile(name, toAdd)`: the missing lines are
        appended, or written to a new file; nothing is written when none
        is missing. */
    method AddLinesToDotfile(name: string, toAdd: seq<string>)
      modifies this
      ensures files == WithDotfile(old(files), name, toAdd)
    {
      var existing: seq<string> := [];
      if name in files {
        existing := SplitLines(files[name]);
      }
      var added := Missing(existing, toAdd);
      if added != [] {
        var lines := Written(added);
        if name in files {
          var sep := Separator(existing);
          files := files[name := files[name] + sep + lines];
        } else {
          files := files[name := lines];
        }
      }
    }

    /** `write_files(...)` of autocog/cog.py: `predict.py`, the requirements
        one per line, `cog.yaml` as `dump` writes the configuration, then
        the two ignore files. */
    method WriteFiles(predictPy: string, gpu: bool, requirements: seq<string>, systemPackages: seq<string>,
                      className: string, pythonVersion: string, cuda: Option<string>,
                      dump: seq<Entry> -> string)
      modifies this
      ensures var written := old(files)["predict.py" := predictPy]["cog_requirements.txt" := Join(requirements, "\n")]
                               ["cog.yaml" := dump(CogConfig(gpu, pythonVersion, systemPackages, className, cuda))];
        files == WithDotfile(WithDotfile(written, ".gitignore", [".cog"]), ".dockerignore", DockerIgnoreLines)
    {
      files := files["predict.py" := predictPy];
      files := files["cog_requirements.txt" := Join(requirements, "\n")];
      var config := [Entry("build", Section([Entry("gpu", Flag(gpu)), Entry("python_version", Text(pythonVersion)),
                                             Entry("python_requirements", Text("cog_requirements.txt"))])),
                     Entry("predict", Text("predict.py:" + className))];
      if cuda.Some? {
        config := config[0 := Entry("build", Section(config[0].value.entries + [Entry("cuda", Text(cuda.value))]))];
      }
      if systemPackages != [] {
        config := config[0 := Entry("build", Section(config[0].value.entries + [Entry("system_packages", Texts(systemPackages))]))];
      }
      assert config == CogConfig(gpu, pythonVersion, systemPackages, className, cuda);
      files := files["cog.yaml" := dump(config)];
      AddLinesToDotfile(".gitignore", [".cog"]);
      AddLinesToDotfile(".dockerignore", DockerIgnoreLines);
    }
  }
}
