/** The helpers of the repair loop in autocog/autocog.py that talk to the
    model: the diagnosis, the ordering of the paths and the two fixes, each
    retried by recursion until the reply is accepted or the attempts run
    out, and the run of `cog predict`. The model's replies are an oracle:
    `replies(n)` is the text the `n`-th request returns, whatever its
    prompt. A request consumes one reply; each function reports how many
    it made. */
module Repair {
  import opened Wrappers
  import opened Strings
  import opened Markers

  const ErrorCogPredict: string := "cog_predict"
  const ErrorPredictPy: string := "predict.py"
  const ErrorCogYaml: string := "cog.yaml"

  /** The diagnoses `diagnose_error` accepts. */
  predicate IsLabel(text: string) {
    text == ErrorPredictPy || text == ErrorCogPredict || text == ErrorCogYaml
  }

  /** `diagnose_error(..., attempt=attempt)` with the replies from `next` on:
      a reply that is not a label is asked again, until attempt 3. */
  function DiagnoseError(replies: nat -> string, next: nat, attempt: nat): (r: Asked<string>)
    requires attempt <= 3
    decreases 3 - attempt
    ensures next < r.after <= next + 4 - attempt
    ensures forall n :: next <= n < r.after - 1 ==> !IsLabel(replies(n))
    ensures r.outcome.Returned? ==> IsLabel(r.outcome.value) && r.outcome.value == replies(r.after - 1)
    ensures r.outcome.Raised? ==>
      r.outcome.error == Exception("ValueError", "Failed to diagnose error") &&
      r.after == next + 4 - attempt && !IsLabel(replies(r.after - 1))
  {
    var text := replies(next);
    if IsLabel(text) then Asked(Returned(text), next + 1)
    else if attempt == 3 then Asked(Raised(Exception("ValueError", "Failed to diagnose error")), next + 1)
    else DiagnoseError(replies, next + 1, attempt + 1)
  }

  /** The diagnosis fails exactly when none of the four replies is a label. */
  lemma DiagnoseFailsIffNoLabel(replies: nat -> string, next: nat)
    ensures DiagnoseError(replies, next, 0).outcome.Raised? <==>
      forall n :: next <= n < next + 4 ==> !IsLabel(replies(n))
  {
    var r := DiagnoseError(replies, next, 0);
    if r.outcome.Returned? {
      assert IsLabel(replies(r.after - 1));
    }
  }

  /** The elements of a list, as `set(...)` builds them. */
  function Elements(s: seq<string>): set<string> {
    set x | x in s
  }

  /** `content.strip().splitlines()`: the paths a reply lists. */
  function ReplyLines(reply: string): seq<string> {
    SplitLines(Strip(reply))
  }

  /** `order_paths(repo_path, attempt=attempt)`, with `paths` the Python files
      found and `listed(n)` the lines of the `n`-th reply: a reply that
      does not list the same set of paths is asked again, until attempt 5.
      Reordering and repeated lines are accepted. */
  function OrderListed(repoPath: string, paths: seq<string>, listed: nat -> seq<string>, next: nat, attempt: nat): (r: Asked<seq<string>>)
    requires attempt <= 5
    decreases 5 - attempt
    ensures paths == [] ==> r == Asked(Raised(Exception("ValueError", repoPath + " has no Python files")), next)
    ensures paths != [] ==> next < r.after <= next + 6 - attempt
    ensures forall n :: next <= n < r.after - 1 ==> Elements(listed(n)) != Elements(paths)
    ensures r.outcome.Returned? ==>
      r.outcome.value == listed(r.after - 1) && Elements(r.outcome.value) == Elements(paths)
    ensures paths != [] && r.outcome.Raised? ==>
      r.outcome.error == Exception("ValueError", "Failed to order paths") && r.after == next + 6 - attempt &&
      Elements(listed(r.after - 1)) != Elements(paths)
  {
    if paths == [] then Asked(Raised(Exception("ValueError", repoPath + " has no Python files")), next)
    else if Elements(listed(next)) != Elements(paths) then
      if attempt == 5 then Asked(Raised(Exception("ValueError", "Failed to order paths")), next + 1)
      else OrderListed(repoPath, paths, listed, next + 1, attempt + 1)
    else Asked(Returned(listed(next)), next + 1)
  }

  /** The lines of each reply. */
  function Listed(replies: nat -> string): nat -> seq<string> {
    (n: nat) => ReplyLines(replies(n))
  }

  /** `order_paths(repo_path)` over the raw replies. */
  function OrderPaths(repoPath: string, paths: seq<string>, replies: nat -> string, next: nat): (r: Asked<seq<string>>)
  {
    OrderListed(repoPath, paths, Listed(replies), next, 0)
  }

  /** With Python files to order, the retry fails exactly when no reply it
      reads lists them. */
  lemma {:induction false} OrderListedFailsIff(repoPath: string, paths: seq<string>, listed: nat -> seq<string>, next: nat, attempt: nat)
    requires paths != [] && attempt <= 5
    decreases 5 - attempt
    ensures OrderListed(repoPath, paths, listed, next, attempt).outcome.Raised? <==>
      forall n :: next <= n < next + 6 - attempt ==> Elements(listed(n)) != Elements(paths)
  {
    if attempt < 5 && Elements(listed(next)) != Elements(paths) {
      OrderListedFailsIff(repoPath, paths, listed, next + 1, attempt + 1);
    }
  }

  /** An ordering that is returned holds exactly the paths found. */
  lemma OrderPathsReturned(repoPath: string, paths: seq<string>, replies: nat -> string, next: nat)
    ensures var r := OrderPaths(repoPath, paths, replies, next);
      r.outcome.Returned? ==> forall p :: p in r.outcome.value <==> p in paths
  {
    var r := OrderListed(repoPath, paths, Listed(replies), next, 0);
    if r.outcome.Returned? {
      var v := r.outcome.value;
      assert Elements(v) == Elements(paths);
      forall p ensures p in v <==> p in paths {
        assert p in v <==> p in Elements(v);
        assert p in paths <==> p in Elements(paths);
      }
    }
  }

  /** A repository with Python files fails to be ordered exactly when none
      of the six replies lists them. */
  lemma OrderPathsFailsIffNoMatch(repoPath: string, paths: seq<string>, replies: nat -> string, next: nat)
    requires paths != []
    ensures OrderPaths(repoPath, paths, replies, next).outcome.Raised? <==>
      forall n :: next <= n < next + 6 ==> Elements(Listed(replies)(n)) != Elements(paths)
  {
    OrderListedFailsIff(repoPath, paths, Listed(replies), next, 0);
  }

  /** The group of `(?:\n```[a-z]*\n)?(.*)(?:\n```)?` that the fixes keep:
      `search` matches at the start, drops an opening fence found there,
      and the greedy `(.*)` takes all the rest, a closing fence included. */
  function StripLeadingFence(text: string): (r: string)
    ensures EndsWith(text, r)
    ensures !StartsWith(text, "\n```") ==> r == text
  {
    match OpenFenceEnd(text, 0)
    case Some(k) => text[k..]
    case None => text
  }

  /** A fenced reply loses its opening fence only: the closing one stays. */
  lemma StripLeadingFenceKeepsClosing(lang: string, c: string)
    requires forall j :: 0 <= j < |lang| ==> 'a' <= lang[j] <= 'z'
    ensures StripLeadingFence("\n```" + lang + "\n" + c + "\n```") == c + "\n```"
  {
    var text := "\n```" + lang + "\n" + c + "\n```";
    assert text[0..4 + |lang| + 1] == "\n```" + lang + "\n";
    OpenFenceOf(text, 0, lang);
    assert text[5 + |lang|..] == c + "\n```";
  }

  /** The patch tool run on a reply, unfenced, as a diff of `contents`. */
  function ApplyReply(contents: string, reply: string, patchTool: (string, string) -> Option<string>): Option<string> {
    patchTool(contents, StripLeadingFence(reply))
  }

  /** The retry of `fix_predict_py(predict_contents, error, attempt=attempt)`,
      with `applied(n)` what the patch tool makes of the `n`-th reply: any
      failure is asked again, until attempt 3, for the bare `except`
      catches everything. */
  function FixApplied(applied: nat -> Option<string>, next: nat, attempt: nat): (r: Asked<string>)
    requires attempt <= 3
    decreases 3 - attempt
    ensures next < r.after <= next + 4 - attempt
    ensures r.outcome.Returned? ==> Some(r.outcome.value) == applied(r.after - 1)
    ensures r.outcome.Raised? ==>
      r.outcome.error == Exception("ValueError", "Failed to generate patch") && r.after == next + 4 - attempt &&
      applied(r.after - 1).None?
  {
    if applied(next).Some? then Asked(Returned(applied(next).value), next + 1)
    else if attempt == 3 then Asked(Raised(Exception("ValueError", "Failed to generate patch")), next + 1)
    else FixApplied(applied, next + 1, attempt + 1)
  }

  /** Every reply before the one the retry ends on failed to apply. */
  lemma {:induction false} FixAppliedEarlierFailed(applied: nat -> Option<string>, next: nat, attempt: nat)
    requires attempt <= 3
    decreases 3 - attempt
    ensures forall n :: next <= n < FixApplied(applied, next, attempt).after - 1 ==> applied(n).None?
  {
    if applied(next).None? && attempt < 3 {
      FixAppliedEarlierFailed(applied, next + 1, attempt + 1);
    }
  }

  /** The retry fails exactly when none of the remaining replies applies. */
  lemma {:induction false} FixAppliedFailsIff(applied: nat -> Option<string>, next: nat, attempt: nat)
    requires attempt <= 3
    decreases 3 - attempt
    ensures FixApplied(applied, next, attempt).outcome.Raised? <==>
      forall n :: next <= n < next + 4 - attempt ==> applied(n).None?
  {
    if applied(next).None? && attempt < 3 {
      FixAppliedFailsIff(applied, next + 1, attempt + 1);
    }
  }

  /** What the `patch` tool, `patchTool` here, makes of each reply,
      unfenced: None when it fails. */
  function Applied(contents: string, replies: nat -> string, patchTool: (string, string) -> Option<string>): nat -> Option<string> {
    (n: nat) => ApplyReply(contents, replies(n), patchTool)
  }

  /** `fix_predict_py(predict_contents, error)`. */
  function FixPredictPy(contents: string, replies: nat -> string, next: nat,
                        patchTool: (string, string) -> Option<string>): Asked<string> {
    FixApplied(Applied(contents, replies, patchTool), next, 0)
  }

  /** At most four requests; a result is the first patch that applies,
      every earlier one having failed; after four failures, ValueError. */
  lemma FixPredictPyOutcome(contents: string, replies: nat -> string, next: nat,
                            patchTool: (string, string) -> Option<string>)
    ensures var applied, r := Applied(contents, replies, patchTool), FixPredictPy(contents, replies, next, patchTool);
      next < r.after <= next + 4 &&
      (forall n :: next <= n < r.after - 1 ==> applied(n).None?) &&
      (r.outcome.Returned? ==> Some(r.outcome.value) == applied(r.after - 1)) &&
      (r.outcome.Raised? <==> forall n :: next <= n < next + 4 ==> applied(n).None?) &&
      (r.outcome.Raised? ==> r.outcome.error == Exception("ValueError", "Failed to generate patch"))
  {
    var applied := Applied(contents, replies, patchTool);
    FixAppliedEarlierFailed(applied, next, 0);
    FixAppliedFailsIff(applied, next, 0);
  }

  /** `fix_cog_yaml`: one request, whose reply is kept without its opening
      fence; nothing checks it. */
  function FixCogYaml(replies: nat -> string, next: nat): (r: Asked<string>)
    ensures r.after == next + 1 && r.outcome.Returned?
    ensures EndsWith(replies(next), r.outcome.value)
  {
    Asked(Returned(StripLeadingFence(replies(next))), next + 1)
  }

  /** `generate_cog_predict_command`: the reply as it is. */
  function GenerateCogPredictCommand(replies: nat -> string, next: nat): Asked<string> {
    Asked(Returned(replies(next)), next + 1)
  }

  const RunningPredictionMarker: string := "Running prediction..."

  /** What `run_cog_predict` makes of a finished process: success is exit
      code 0 alone, and stderr is returned either way. In quiet mode a
      success prints the text after "Running prediction...", and
      `split(...)[1]` raises when stderr lacks it. */
  function PredictResult(lines: seq<string>, returncode: int, verbose: bool): (r: Outcome<(bool, string)>)
    ensures r.Returned? ==> r.value == (returncode == 0, Concat(lines))
    ensures r.Raised? <==> returncode == 0 && !verbose && !Contains(Concat(lines), RunningPredictionMarker)
  {
    var stderr := Concat(lines);
    if returncode == 0 && !verbose && !Contains(stderr, RunningPredictionMarker) then
      Raised(Exception("IndexError", "list index out of range"))
    else Returned((returncode == 0, stderr))
  }

  /** `run_cog_predict` over the decoded stderr lines of the process and its
      exit code after `wait()`. */
  method RunCogPredict(lines: seq<string>, returncode: int, verbose: bool) returns (r: Outcome<(bool, string)>)
    ensures r == PredictResult(lines, returncode, verbose)
  {
    var stderr := "";
    for i := 0 to |lines|
      invariant stderr == Concat(lines[..i])
    {
      ConcatSnoc(lines[..i], lines[i]);
      assert lines[..i + 1] == lines[..i] + [lines[i]];
      stderr := stderr + lines[i];
    }
    assert lines[..|lines|] == lines;
    if returncode == 0 {
      if !verbose && !Contains(stderr, RunningPredictionMarker) {
        return Raised(Exception("IndexError", "list index out of range"));
      }
      return Returned((true, stderr));
    }
    return Returned((false, stderr));
  }
}
