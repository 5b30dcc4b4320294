/** The agents of autocog/agents.py, without their prompts. Each request
    to the model is an oracle: a reply, or the error the call raises. The
    process of `run_cog_predict` is the decoded lines of its stderr and the
    exit code it reports; the parser behind `_extract_imports_from_file`,
    `importlib.util.find_spec` and the PyPI client are oracles too. */
module Agents {
  import opened Wrappers
  import opened Strings
  import opened Markers
  import Retry
  import CogCli

  const MaxErrorLength: int := 10000
  /** The `retry(5)` of `diagnose_error`, `fix_cog_yaml` and `fix_predict_py`. */
  const AgentAttempts: int := 5

  /** `_collect_stderr`: every line, in order. */
  method CollectStderr(lines: seq<string>) returns (stderr: string)
    ensures stderr == Concat(lines)
  {
    stderr := "";
    for i := 0 to |lines|
      invariant stderr == Concat(lines[..i])
    {
      ConcatSnoc(lines[..i], lines[i]);
      assert lines[..i + 1] == lines[..i] + [lines[i]];
      stderr := stderr + lines[i];
    }
    assert lines[..|lines|] == lines;
  }

  /** The test `run_cog_predict` applies; `returncode` is None while the
      process has not been waited on. */
  predicate Verdict(returncode: Option<int>, stderr: string) {
    returncode == Some(0) && !Contains(stderr, CogCli.TracebackMarker)
  }

  /** `run_cog_predict` as written: the exit code is read straight after
      stderr is drained, without `wait()`. */
  method RunCogPredict(lines: seq<string>, returncode: Option<int>) returns (ok: bool, stderr: string)
    ensures stderr == Concat(lines)
    ensures ok <==> returncode == Some(0) && !Contains(stderr, CogCli.TracebackMarker)
  {
    stderr := CollectStderr(lines);
    ok := returncode == Some(0) && !Contains(stderr, CogCli.TracebackMarker);
  }

  /** The code as written fails every run whose exit code was not yet
      collected, even a clean one. */
  lemma UnwaitedRunFails(lines: seq<string>)
    requires forall i :: 0 <= i < |lines| ==> lines[i] == []
    ensures !Verdict(None, Concat(lines))
    ensures Waited(0, Concat(lines))
  {
    NoTracebackInBlank(lines);
  }

  lemma {:induction false} NoTracebackInBlank(lines: seq<string>)
    requires forall i :: 0 <= i < |lines| ==> lines[i] == []
    ensures Concat(lines) == []
  {
    if lines != [] {
      NoTracebackInBlank(lines[1..]);
    }
  }

  /** The test after `proc.wait()`, which always sets the exit code. */
  predicate Waited(returncode: int, stderr: string) {
    returncode == 0 && !Contains(stderr, CogCli.TracebackMarker)
  }

  /** `run_cog_predict` with `proc.wait()` before the exit code is read:
      success exactly when the process exited with 0 and printed no
      traceback, as `predict` of autocog/cog.py decides. */
  method RunCogPredictWaited(lines: seq<string>, returncode: int) returns (ok: bool, stderr: string)
    ensures stderr == Concat(lines)
    ensures ok <==> Waited(returncode, stderr)
    ensures ok <==> Verdict(Some(returncode), stderr)
  {
    stderr := CollectStderr(lines);
    ok := returncode == 0 && !Contains(stderr, CogCli.TracebackMarker);
  }

  /** `_truncate_error(error, max_length)`: `error[:max_length]`. */
  function TruncateError(error: string, maxLength: int): (r: string)
    ensures r <= error
    ensures 0 <= maxLength ==> |r| == if |error| < maxLength then |error| else maxLength
    ensures maxLength < 0 ==> |r| == if |error| + maxLength < 0 then 0 else |error| + maxLength
  {
    Take(error, maxLength)
  }

  /** What the two requests of one `diagnose_error` attempt give back. */
  datatype DiagnosisReplies = DiagnosisReplies(diagnosis: Outcome<string>, packageError: Outcome<string>)

  /** One attempt: the diagnosis and whether the second reply is "True";
      an error of either request is raised, the first one first. */
  function DiagnoseOnce(replies: DiagnosisReplies): (r: Outcome<(string, bool)>)
    ensures r.Returned? <==> replies.diagnosis.Returned? && replies.packageError.Returned?
    ensures r.Returned? ==> r.value.0 == replies.diagnosis.value && (r.value.1 <==> replies.packageError.value == "True")
    ensures r.Raised? && replies.diagnosis.Raised? ==> r.error == replies.diagnosis.error
    ensures r.Raised? && replies.diagnosis.Returned? ==> r.error == replies.packageError.error
  {
    match replies.diagnosis
    case Raised(e) => Raised(e)
    case Returned(diagnosis) =>
      match replies.packageError
      case Raised(e) => Raised(e)
      case Returned(flag) => Returned((diagnosis, flag == "True"))
  }

  /** `ErrorDiagnosisAgent.diagnose_error(predict_command, error)`:
      `replies(k, e)` is what attempt `k` gets back when shown the error
      text `e`, which is the error truncated. */
  function DiagnoseError(replies: (nat, string) -> DiagnosisReplies, error: string): (Outcome<Option<(string, bool)>>, nat) {
    var shown := TruncateError(error, MaxErrorLength);
    Retry.Tries((k: nat) => DiagnoseOnce(replies(k, shown)), 0, AgentAttempts)
  }

  /** At most five attempts, each shown the first 10000 characters; a
      result is that of the last attempt, its flag true exactly when the
      second reply is "True", and every earlier attempt raised. */
  lemma DiagnoseErrorOutcome(replies: (nat, string) -> DiagnosisReplies, error: string)
    ensures var (r, made) := DiagnoseError(replies, error);
      var shown := TruncateError(error, MaxErrorLength);
      0 < made <= AgentAttempts &&
      (forall k :: 0 <= k < made - 1 ==> DiagnoseOnce(replies(k, shown)).Raised?) &&
      (r.Returned? ==>
        (r.value.Some? && replies(made - 1, shown).diagnosis.Returned? &&
         replies(made - 1, shown).packageError.Returned? &&
         r.value.value.0 == replies(made - 1, shown).diagnosis.value &&
         (r.value.value.1 <==> replies(made - 1, shown).packageError.value == "True"))) &&
      (r.Raised? ==> DiagnoseOnce(replies(made - 1, shown)).Raised?)
  {
    var shown := TruncateError(error, MaxErrorLength);
    var calls := (k: nat) => DiagnoseOnce(replies(k, shown));
    var t := Retry.Tries(calls, 0, AgentAttempts);
    assert t == DiagnoseError(replies, error);
    if t.0.Returned? {
      assert calls(t.1 - 1) == DiagnoseOnce(replies(t.1 - 1, shown));
    }
  }

  /** `_get_package_versions(client, package)`: a pinned `name==version`
      gives the text between the first and second `==`; otherwise the
      versions the package index lists, None when it has no such project. */
  function PackageVersions(package: string, project: string -> Option<set<string>>): (r: Option<set<string>>)
    ensures !Contains(package, "==") ==> r == project(package)
    ensures Contains(package, "==") ==> r.Some? && |r.value| == 1 && forall v :: v in r.value ==> !Contains(v, "==")
  {
    if !Contains(package, "==") then project(package)
    else Some({SplitSecond(package, "==").value})
  }

  /** A pin whose name neither holds `==` nor ends with `=` yields its
      version, when that holds no `==`. */
  lemma PinnedVersion(name: string, v: string, project: string -> Option<set<string>>)
    requires !Contains(name, "==") && (name == [] || name[|name| - 1] != '=')
    requires !Contains(v, "==")
    ensures PackageVersions(name + "==" + v, project) == Some({v})
  {
    var s := name + "==" + v;
    assert s[|name|..|name| + 2] == "==";
    assert OccursAt(s, "==", |name|);
    FindNoneIffAbsent(s, "==");
    forall j: nat | j < |name|
      ensures !OccursAt(s, "==", j)
    {
      NoEarlierPin(name, v, j);
    }
    var k := Find(s, "==", 0).value;
    assert k == |name|;
    assert s[k + 2..] == v;
  }

  /** No `==` of the pin starts inside the name. */
  lemma NoEarlierPin(name: string, v: string, j: nat)
    requires !Contains(name, "==") && (name == [] || name[|name| - 1] != '=')
    requires j < |name|
    ensures !OccursAt(name + "==" + v, "==", j)
  {
    var s := name + "==" + v;
    if j + 2 <= |name| {
      assert s[j..j + 2] == name[j..j + 2];
      assert !OccursAt(name, "==", j);
    } else {
      assert s[j] == name[|name| - 1];
    }
  }

  /** `PathOrderingAgent.order_paths(repo_path)` once the model has
      replied: the reply's lines, each joined to the repository by `join`
      (`repo_path / Path(p)`), are accepted when every one of them is a
      Python file found. Omissions, repetitions and any order pass. */
  function AgentOrderPaths(repoPath: string, paths: seq<string>, reply: string, join: string -> string): (r: Result<seq<string>, Raise>)
    ensures paths == [] ==> r == Err(Exception("ValueError", repoPath + " has no Python files"))
    ensures paths != [] && r.Err? ==> r.error == Exception("ValueError", "Failed to order paths")
    ensures r.Ok? ==> var lines := SplitLines(Strip(reply));
      |r.value| == |lines| && forall i :: 0 <= i < |lines| ==> r.value[i] == join(lines[i]) && r.value[i] in paths
  {
    var lines := SplitLines(Strip(reply));
    if paths == [] then Err(Exception("ValueError", repoPath + " has no Python files"))
    else if forall i :: 0 <= i < |lines| ==> join(lines[i]) in paths then
      Ok(seq(|lines|, i requires 0 <= i < |lines| => join(lines[i])))
    else Err(Exception("ValueError", "Failed to order paths"))
  }

  /** With files found, the reply is accepted exactly when every line of it
      names one of them. */
  lemma OrderingAcceptedIffKnown(repoPath: string, paths: seq<string>, reply: string, join: string -> string)
    requires paths != []
    ensures AgentOrderPaths(repoPath, paths, reply, join).Ok? <==>
      forall l :: l in SplitLines(Strip(reply)) ==> join(l) in paths
  {
    var lines := SplitLines(Strip(reply));
    if forall l :: l in lines ==> join(l) in paths {
      forall i | 0 <= i < |lines| ensures join(lines[i]) in paths {
        assert lines[i] in lines;
      }
    } else {
      var l :| l in lines && join(l) !in paths;
      var i :| 0 <= i < |lines| && lines[i] == l;
    }
  }

  /** An empty reply orders nothing and is accepted. */
  lemma EmptyOrderingAccepted(repoPath: string, paths: seq<string>, join: string -> string)
    requires paths != []
    ensures AgentOrderPaths(repoPath, paths, "", join) == Ok([])
  {
    assert Strip("") == [];
  }

  /** Python's `<` on strings: by code point, a proper prefix first. */
  predicate Below(a: string, b: string)
    decreases |a|
  {
    if a == [] then b != []
    else if b == [] then false
    else if a[0] != b[0] then a[0] < b[0]
    else Below(a[1..], b[1..])
  }

  lemma {:induction false} BelowTotal(a: string, b: string)
    decreases |a|
    ensures a == b || Below(a, b) || Below(b, a)
  {
    if a != [] && b != [] && a[0] == b[0] {
      BelowTotal(a[1..], b[1..]);
      if a[1..] == b[1..] {
        assert a == [a[0]] + a[1..] && b == [b[0]] + b[1..];
      }
    }
  }

  lemma {:induction false} BelowAsymmetric(a: string, b: string)
    requires Below(a, b)
    decreases |a|
    ensures !Below(b, a) && a != b
  {
    if a != [] && a[0] == b[0] {
      BelowAsymmetric(a[1..], b[1..]);
    }
  }

  lemma {:induction false} BelowTransitive(a: string, b: string, c: string)
    requires Below(a, b) && Below(b, c)
    decreases |a|
    ensures Below(a, c)
  {
    if a != [] && a[0] == b[0] && b[0] == c[0] {
      BelowTransitive(a[1..], b[1..], c[1..]);
    }
  }

  /** Each string before the next. */
  predicate Ascending(s: seq<string>) {
    forall i :: 0 <= i < |s| - 1 ==> Below(s[i], s[i + 1])
  }

  /** An ascending list is in strict order throughout, so it has no
      repeated element. */
  lemma {:induction false} AscendingStrict(s: seq<string>, i: nat, j: nat)
    requires Ascending(s) && i < j < |s|
    decreases j - i
    ensures Below(s[i], s[j]) && s[i] != s[j]
  {
    if i + 1 < j {
      AscendingStrict(s, i + 1, j);
      BelowTransitive(s[i], s[i + 1], s[j]);
    }
    BelowAsymmetric(s[i], s[j]);
  }

  /** A list in which no element repeats. */
  predicate Distinct(xs: seq<string>) {
    forall i, j :: 0 <= i < j < |xs| ==> xs[i] != xs[j]
  }

  /** `x`, which the list lacks, put in its place in an ascending list. */
  function Insert(s: seq<string>, x: string): (r: seq<string>)
    requires Ascending(s) && x !in s
    ensures Ascending(r) && forall y :: y in r <==> y in s || y == x
    ensures |r| == |s| + 1
    ensures r[0] == x || (s != [] && r[0] == s[0])
  {
    if s == [] then [x]
    else if Below(x, s[0]) then [x] + s
    else
      BelowTotal(x, s[0]);
      var rest := Insert(s[1..], x);
      assert Ascending(s[1..]) by {
        forall i | 0 <= i < |s[1..]| - 1
          ensures Below(s[1..][i], s[1..][i + 1])
        {
          assert s[1..][i] == s[i + 1] && s[1..][i + 1] == s[i + 2];
        }
      }
      assert forall y :: y in s <==> y == s[0] || y in s[1..] by {
        assert s == [s[0]] + s[1..];
      }
      [s[0]] + rest
  }

  /** `sorted(...)` of a list without repeated elements, as the list
      `get_imported_packages` sorts is: the ascending list of the same
      elements and length, so a permutation. */
  function Sorted(xs: seq<string>): (r: seq<string>)
    requires Distinct(xs)
    ensures Ascending(r) && forall y :: y in r <==> y in xs
    ensures |r| == |xs|
  {
    if xs == [] then []
    else
      assert Distinct(xs[1..]) by {
        forall i, j | 0 <= i < j < |xs[1..]| ensures xs[1..][i] != xs[1..][j] {
          assert xs[1..][i] == xs[i + 1] && xs[1..][j] == xs[j + 1];
        }
      }
      var rest := Sorted(xs[1..]);
      assert forall y :: y in xs <==> y == xs[0] || y in xs[1..] by {
        assert xs == [xs[0]] + xs[1..];
      }
      assert xs[0] !in xs[1..] by {
        forall k | 0 <= k < |xs[1..]| ensures xs[1..][k] != xs[0] {
          assert xs[1..][k] == xs[k + 1];
        }
      }
      Insert(rest, xs[0])
  }

  /** `name.split('.')[0]`: the root package of an imported module. */
  function Root(name: string): (r: string)
    ensures r <= name && '.' !in r
    ensures '.' !in name ==> r == name
    ensures '.' in name ==> r + "." <= name
  {
    assert forall x: string :: Contains(x, ".") <==> '.' in x by {
      forall x: string
        ensures Contains(x, ".") <==> '.' in x
      {
        if '.' in x {
          var i :| 0 <= i < |x| && x[i] == '.';
          assert x[i..i + 1] == ".";
          assert OccursAt(x, ".", i);
        }
        if Contains(x, ".") {
          var i: nat :| i <= |x| && OccursAt(x, ".", i);
          assert x[i..i + 1][0] == x[i];
        }
      }
    }
    SplitFirst(name, ".")
  }

  /** The roots of a file's imported modules. */
  function RootsOf(names: seq<string>): set<string> {
    set n | n in names :: Root(n)
  }

  /** The last part of a path. */
  function BaseName(path: string): (r: string)
    ensures '/' !in r && EndsWith(path, r)
  {
    if path == [] then []
    else if path[|path| - 1] == '/' then []
    else
      var r := BaseName(path[..|path| - 1]) + [path[|path| - 1]];
      assert path[|path| - |r|..] == path[..|path| - 1][|path| - |r|..] + [path[|path| - 1]];
      r
  }

  /** The last part is the whole path or starts right after a `/`. */
  lemma {:induction false} BaseNameAfterSlash(path: string)
    ensures var r := BaseName(path); r == path || path[|path| - |r| - 1] == '/'
  {
    if path != [] && path[|path| - 1] != '/' {
      var init := path[..|path| - 1];
      BaseNameAfterSlash(init);
      var b := BaseName(init);
      if b != init {
        assert path[|path| - |b| - 2] == init[|init| - |b| - 1];
      } else {
        assert path == init + [path[|path| - 1]];
      }
    }
  }

  /** `file_path.suffix == '.py'`: the last dot of the name ends it in
      `.py` and does not start it. */
  predicate IsPythonFile(path: string) {
    var name := BaseName(path);
    |name| > 3 && EndsWith(name, ".py")
  }

  /** The roots imported by the Python files among `paths`; `imports(p)`
      is the module of every `import` and `from ... import` in file `p`. */
  function Roots(paths: seq<string>, imports: string -> seq<string>): set<string> {
    if paths == [] then {}
    else
      var last := paths[|paths| - 1];
      Roots(paths[..|paths| - 1], imports) + (if IsPythonFile(last) then RootsOf(imports(last)) else {})
  }

  /** `_is_standard_library(package)`: found by `find_spec` and built in. */
  predicate IsStandardLibrary(package: string, found: string -> bool, builtins: set<string>) {
    found(package) && package in builtins
  }

  /** `_extract_imports_from_file` over the modules the parser finds. */
  method ExtractImports(names: seq<string>) returns (roots: set<string>)
    ensures roots == RootsOf(names)
  {
    roots := {};
    for i := 0 to |names|
      invariant roots == RootsOf(names[..i])
    {
      assert names[..i + 1] == names[..i] + [names[i]];
      roots := roots + {Root(names[i])};
    }
    assert names[..|names|] == names;
  }

  /** `_filter_standard_libraries(packages)`: the packages that are not
      standard, each once, in the order the set yields them. */
  method FilterStandardLibraries(packages: set<string>, found: string -> bool, builtins: set<string>)
    returns (kept: seq<string>)
    ensures forall p :: p in kept <==> p in packages && !IsStandardLibrary(p, found, builtins)
    ensures Distinct(kept)
  {
    kept := [];
    var remaining := packages;
    while remaining != {}
      invariant remaining <= packages
      invariant forall p :: p in kept <==> p in packages - remaining && !IsStandardLibrary(p, found, builtins)
      invariant Distinct(kept)
      decreases |remaining|
    {
      var p :| p in remaining;
      if !IsStandardLibrary(p, found, builtins) {
        kept := kept + [p];
      }
      remaining := remaining - {p};
    }
  }

  /** `get_imported_packages(ordered_paths)`: the roots imported by its
      Python files that are not standard, sorted and each once. */
  method GetImportedPackages(orderedPaths: seq<string>, imports: string -> seq<string>,
                             found: string -> bool, builtins: set<string>) returns (r: seq<string>)
    ensures Ascending(r)
    ensures forall p :: p in r <==> p in Roots(orderedPaths, imports) && !IsStandardLibrary(p, found, builtins)
  {
    var imported: set<string> := {};
    for i := 0 to |orderedPaths|
      invariant imported == Roots(orderedPaths[..i], imports)
    {
      var path := orderedPaths[i];
      assert orderedPaths[..i + 1][..i] == orderedPaths[..i];
      if IsPythonFile(path) {
        var roots := ExtractImports(imports(path));
        imported := imported + roots;
      }
    }
    assert orderedPaths[..|orderedPaths|] == orderedPaths;
    var kept := FilterStandardLibraries(imported, found, builtins);
    r := Sorted(kept);
  }

  /** The names autocog/prompts.py defines at module level: its imports,
      constants, extension classes, functions and system prompts. */
  const PromptNames: set<string> := {
    "os", "Path", "nodes", "Environment", "FileSystemLoader", "Extension",
    "COG_DOCS", "PREDICT_DOCS", "FILE_START", "FILE_END", "COMMAND_START", "COMMAND_END",
    "ERROR_COG_PREDICT", "ERROR_PREDICT_PY", "ERROR_COG_YAML",
    "FileStartExtension", "FileEndExtension",
    "render", "order_paths", "generate_cog_yaml", "generate_predict_py", "diagnose_error",
    "package_error", "get_packages", "cog_predict",
    "order_paths_system", "package_info_system", "cog_generation_system", "predict_generation_system",
    "error_diagnosis_system", "cog_fixing_system", "predict_fixing_system", "cog_predict_system",
    "file_start", "file_end"}

  /** The prompts the two fixing agents send. */
  const FixCogYamlPrompt: string := "fix_cog_yaml"
  const FixPredictPyPrompt: string := "fix_predict_py"

  /** `prompts.<name>` for a name the module lacks. */
  function MissingPrompt(name: string): Raise {
    Exception("AttributeError", "module 'autocog.prompts' has no attribute '" + name + "'")
  }

  const FileStartUndefined: Raise := Exception("NameError", "name 'file_start' is not defined")

  /** One attempt of `fix_cog_yaml` or `fix_predict_py` as written, sending
      `prompts.<prompt>`. The argument is evaluated first: a name the
      module lacks raises AttributeError and no request is made. Only a
      prompt that exists is sent; the request's error is then raised,
      and a reply reaches `_file_from_gpt_response`, whose pattern calls
      `file_start`, a name agents.py neither defines nor imports. */
  function FixAttempt(prompt: string, reply: Outcome<string>): (r: Outcome<string>)
    ensures r.Raised?
    ensures prompt !in PromptNames ==> r.error == MissingPrompt(prompt)
    ensures prompt in PromptNames && reply.Returned? ==> r.error == FileStartUndefined
  {
    if prompt !in PromptNames then Raised(MissingPrompt(prompt))
    else match reply
      case Raised(e) => Raised(e)
      case Returned(_) => Raised(FileStartUndefined)
  }

  /** `CogFixingAgent.fix_cog_yaml` and `PredictFixingAgent.fix_predict_py`
      as written, `replies(k)` being what attempt `k`'s request would give. */
  function FixFile(prompt: string, replies: nat -> Outcome<string>): (Outcome<Option<string>>, nat) {
    Retry.Tries((k: nat) => FixAttempt(prompt, replies(k)), 0, AgentAttempts)
  }

  /** `fix_cog_yaml` is not in autocog/prompts.py. */
  lemma CogFixPromptMissing()
    ensures FixCogYamlPrompt !in PromptNames
  {
    assert |FixCogYamlPrompt| == 12;
    assert forall n | n in PromptNames :: |n| != 12 || n == "PREDICT_DOCS" || n == "get_packages";
  }

  /** `fix_predict_py` is not in autocog/prompts.py. */
  lemma PredictFixPromptMissing()
    ensures FixPredictPyPrompt !in PromptNames
  {
    assert |FixPredictPyPrompt| == 14;
    assert forall n | n in PromptNames :: |n| != 14 || n == "ERROR_COG_YAML" || n == "diagnose_error";
  }

  /** The fixes never return and never ask: whatever the replies, each of
      the five attempts raises AttributeError before its request, and
      the fifth error escapes. */
  lemma FixFileNeverReturns(prompt: string, replies: nat -> Outcome<string>)
    requires prompt == FixCogYamlPrompt || prompt == FixPredictPyPrompt
    ensures FixFile(prompt, replies) == (Raised(MissingPrompt(prompt)), AgentAttempts)
  {
    if prompt == FixCogYamlPrompt { CogFixPromptMissing(); } else { PredictFixPromptMissing(); }
    var calls := (k: nat) => FixAttempt(prompt, replies(k));
    forall j | 0 <= j < AgentAttempts
      ensures calls(j) == Raised(MissingPrompt(prompt))
    {
      assert calls(j) == FixAttempt(prompt, replies(j));
    }
    Retry.GivesUpWithLast(calls, AgentAttempts, 0);
  }

  /** Had the prompt existed, every answered attempt would have met the
      NameError of `file_start` instead. */
  lemma FixFileWithPromptNameError(prompt: string, replies: nat -> Outcome<string>)
    requires prompt in PromptNames
    requires forall k :: 0 <= k < AgentAttempts ==> replies(k).Returned?
    ensures FixFile(prompt, replies) == (Raised(FileStartUndefined), AgentAttempts)
  {
    var calls := (k: nat) => FixAttempt(prompt, replies(k));
    forall j | 0 <= j < AgentAttempts
      ensures calls(j) == Raised(FileStartUndefined)
    {
    }
    Retry.GivesUpWithLast(calls, AgentAttempts, 0);
  }

  /** One attempt as evidently meant: a prompt that exists is sent, and
      the reply is read with the markers of autocog/autocog.py, which the
      pattern means: the text between them, stripped, or ValueError. */
  function CorrectedFixAttempt(reply: Outcome<string>, filename: string): (r: Outcome<string>)
    requires RegexPlain(filename)
    ensures reply.Raised? ==> r == reply
    ensures reply.Returned? ==> (r.Returned? <==> ExtractFile(reply.value, filename).Ok?)
    ensures r.Returned? ==> Unpadded(r.value)
  {
    match reply
    case Raised(e) => Raised(e)
    case Returned(text) =>
      match ExtractFile(text, filename)
      case Ok(v) => Returned(v)
      case Err(e) => Raised(e)
  }

  function CorrectedFixFile(replies: nat -> Outcome<string>, filename: string): (Outcome<Option<string>>, nat)
    requires RegexPlain(filename)
  {
    Retry.Tries((k: nat) => CorrectedFixAttempt(replies(k), filename), 0, AgentAttempts)
  }

  /** With the markers defined, a first reply that marks the file gives
      its text after one request. */
  lemma CorrectedFixReturnsMarked(replies: nat -> Outcome<string>, filename: string, pre: string, c: string, post: string)
    requires RegexPlain(filename)
    requires NoMatchBefore(pre + FileStart(filename), FileStart(filename), |pre|)
    requires NoMatchBefore(c + FileEnd(filename), FileEnd(filename), |c|)
    requires replies(0) == Returned(pre + FileStart(filename) + c + FileEnd(filename) + post)
    ensures CorrectedFixFile(replies, filename) == (Returned(Some(Strip(c))), 1)
  {
    ExtractFileRoundTrip(pre, c, post, filename);
    var calls := (k: nat) => CorrectedFixAttempt(replies(k), filename);
    assert calls(0) == Returned(Strip(c));
    Retry.SucceedsOnAttempt(calls, AgentAttempts, 0, 1);
  }
}
