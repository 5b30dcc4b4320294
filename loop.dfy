/** The generate–run–diagnose–repair loop of `autocog` in
    autocog/autocog.py, from the files `generate_files` returned: the
    files are written, a `cog predict` command is asked for, and then for
    at most `MaxAttempts` attempts the command's file inputs are created,
    the command is run, and a failure is diagnosed and repaired. The
    outside world is a `World`: the model's replies, the processes `cog
    predict` starts, and the `patch` tool. */
module AutocogLoop {
  import opened Wrappers
  import opened Strings
  import opened PredictError
  import opened PredictCommand
  import opened Repair

  const MaxAttempts: nat := 3

  /** A `cog predict` process: its decoded stderr lines and its exit code
      after `wait()`. */
  datatype Process = Process(lines: seq<string>, returncode: int)

  /** `replies(n)` answers the `n`-th request to the model; `runs(n, disk,
      command)` is the `n`-th process, started with the repository's files
      as they are on disk; `patchTool` gives None when `patch` fails. */
  datatype World = World(
    replies: nat -> string,
    runs: (nat, map<string, string>, string) -> Process,
    patchTool: (string, string) -> Option<string>,
    verbose: bool)

  /** The loop's variables (`files`, `cog_predict_command`), the files on
      disk, the empty input files created under /tmp, the excerpts handed
      to the model, and the next reply and process to be used. */
  datatype State = State(
    files: map<string, string>,
    command: string,
    disk: map<string, string>,
    inputs: seq<string>,
    excerpts: seq<string>,
    asked: nat,
    ran: nat)

  /** How `autocog` ends: it returns after a success, exits with status 1
      after the last failure, or an exception escapes. */
  datatype Ending = Succeeded | GaveUp | Crashed(error: Raise)

  datatype Step = Next(state: State) | Stop(ending: Ending, last: State)

  predicate HasBothFiles(files: map<string, string>) {
    "predict.py" in files && "cog.yaml" in files
  }

  /** `write_files(repo_path, files)`: every file is written; others on disk stay. */
  function WriteFiles(disk: map<string, string>, files: map<string, string>): (r: map<string, string>)
    ensures r.Keys == disk.Keys + files.Keys
    ensures forall k :: k in files ==> r[k] == files[k]
    ensures forall k :: k in disk && k !in files ==> r[k] == disk[k]
  {
    disk + files
  }

  /** The repair a diagnosis selects, on the state after the diagnosis. */
  function RepairFor(w: World, s: State, source: string): (r: Step)
    requires HasBothFiles(s.files) && IsLabel(source)
    ensures r.Next? ==> HasBothFiles(r.state.files)
  {
    if source == ErrorPredictPy then
      var fix := FixPredictPy(s.files["predict.py"], w.replies, s.asked, w.patchTool);
      match fix.outcome
      case Raised(e) => Stop(Crashed(e), s.(asked := fix.after))
      case Returned(patched) =>
        var files := s.files["predict.py" := patched];
        Next(s.(files := files, disk := WriteFiles(s.disk, files), asked := fix.after))
    else if source == ErrorCogYaml then
      var fix := FixCogYaml(w.replies, s.asked);
      Next(s.(files := s.files["cog.yaml" := fix.outcome.value], asked := fix.after))
    else
      var gen := GenerateCogPredictCommand(w.replies, s.asked);
      Next(s.(command := gen.outcome.value, disk := WriteFiles(s.disk, s.files), asked := gen.after))
  }

  /** The first half of the loop body: the inputs are created and the
      command is run. A failed run that is not the last goes on to the
      diagnosis with its stderr. */
  datatype Launch = Finished(ending: Ending, last: State) | FailedRun(state: State, stderr: string)

  function LaunchAt(w: World, s: State, attempt: nat): (r: Launch)
    requires attempt < MaxAttempts
    ensures r.FailedRun? ==>
      attempt < MaxAttempts - 1 && r.state.files == s.files && r.state.disk == s.disk &&
      r.state.command == Rewritten(s.command) && r.state.ran == s.ran + 1 && r.state.asked == s.asked
    ensures r.Finished? ==>
      r.last.files == s.files && r.last.disk == s.disk && r.last.asked == s.asked &&
      s.ran <= r.last.ran <= s.ran + 1
    ensures r.Finished? && r.ending == GaveUp ==> attempt == MaxAttempts - 1 && r.last.ran == s.ran + 1
  {
    var (made, created) := CreateFiles(s.command);
    var s0 := s.(inputs := s.inputs + created);
    if made.Raised? then Finished(Crashed(made.error), s0)
    else
      var s1 := s0.(command := made.value, ran := s.ran + 1);
      var proc := w.runs(s.ran, s.disk, made.value);
      var result := PredictResult(proc.lines, proc.returncode, w.verbose);
      if result.Raised? then Finished(Crashed(result.error), s1)
      else if result.value.0 then Finished(Succeeded, s1)
      else if attempt == MaxAttempts - 1 then Finished(GaveUp, s1)
      else FailedRun(s1, result.value.1)
  }

  /** The second half: the excerpt of stderr is diagnosed, and the
      diagnosis picks the repair. */
  function Diagnosed(w: World, s: State, stderr: string): (r: Step)
    requires HasBothFiles(s.files)
    ensures r.Next? ==> HasBothFiles(r.state.files)
  {
    var error := ParseCogPredictError(stderr, DefaultMaxLength);
    var diagnosis := DiagnoseError(w.replies, s.asked, 0);
    var s2 := s.(excerpts := s.excerpts + [error], asked := diagnosis.after);
    match diagnosis.outcome
    case Raised(e) => Stop(Crashed(e), s2)
    case Returned(source) => RepairFor(w, s2, source)
  }

  /** One pass of the loop body at `attempt`. */
  function Attempt(w: World, s: State, attempt: nat): (r: Step)
    requires attempt < MaxAttempts && HasBothFiles(s.files)
    ensures r.Next? ==> attempt < MaxAttempts - 1 && HasBothFiles(r.state.files)
  {
    match LaunchAt(w, s, attempt)
    case Finished(e, t) => Stop(e, t)
    case FailedRun(t, stderr) => Diagnosed(w, t, stderr)
  }

  /** The loop from `attempt` on: how it ends, and the state it leaves. */
  function Run(w: World, s: State, attempt: nat): (r: (Ending, State))
    requires attempt < MaxAttempts && HasBothFiles(s.files)
    decreases MaxAttempts - attempt
  {
    match Attempt(w, s, attempt)
    case Stop(e, t) => (e, t)
    case Next(t) => Run(w, t, attempt + 1)
  }

  /** The command after the inputs are created, when they are. */
  function Rewritten(command: string): string {
    RewriteAll(command, FindAll(command))
  }

  /** An attempt succeeds exactly when the inputs are created and the
      process exits with 0; in quiet mode its stderr must also hold
      "Running prediction...". It uses one process and asks nothing. */
  lemma AttemptSucceeds(w: World, s: State, attempt: nat)
    requires attempt < MaxAttempts && HasBothFiles(s.files)
    ensures var proc := w.runs(s.ran, s.disk, Rewritten(s.command));
      Attempt(w, s, attempt).Stop? && Attempt(w, s, attempt).ending == Succeeded <==>
        CreateFiles(s.command).0.Returned? && proc.returncode == 0 &&
        (w.verbose || Contains(Concat(proc.lines), RunningPredictionMarker))
    ensures var r := Attempt(w, s, attempt);
      r.Stop? && r.ending == Succeeded ==>
        r.last.ran == s.ran + 1 && r.last.asked == s.asked && r.last.files == s.files
  {
  }

  /** A failure at the last attempt gives up: no diagnosis, no repair. */
  lemma LastFailureGivesUp(w: World, s: State)
    requires HasBothFiles(s.files)
    ensures var proc := w.runs(s.ran, s.disk, Rewritten(s.command));
      CreateFiles(s.command).0.Returned? && proc.returncode != 0 ==>
        Attempt(w, s, MaxAttempts - 1) ==
          Stop(GaveUp, s.(inputs := s.inputs + CreateFiles(s.command).1, command := Rewritten(s.command), ran := s.ran + 1))
  {
  }

  /** A repair changes one thing: `predict.py` (then all files are
      written), or `cog.yaml` (in memory only: the disk stays as it was),
      or the command (then all files are written). It asks at most four
      requests. */
  lemma RepairForTouchesOne(w: World, s: State, source: string)
    requires HasBothFiles(s.files) && IsLabel(source)
    ensures var r := RepairFor(w, s, source);
      (r.Stop? ==> r.last.ran == s.ran && s.asked < r.last.asked <= s.asked + 4) &&
      (r.Next? ==>
        var t := r.state;
        t.files.Keys == s.files.Keys && t.ran == s.ran && s.asked < t.asked <= s.asked + 4 &&
        ((source == ErrorPredictPy && t.files == s.files["predict.py" := t.files["predict.py"]] &&
          t.command == s.command && t.disk == WriteFiles(s.disk, t.files)) ||
         (source == ErrorCogYaml && t.files == s.files["cog.yaml" := t.files["cog.yaml"]] &&
          t.command == s.command && t.disk == s.disk) ||
         (source == ErrorCogPredict && t.files == s.files && t.disk == WriteFiles(s.disk, s.files))))
  {
  }

  /** The diagnosis asks at most four requests and changes nothing else but
      the excerpts; the repair follows. */
  lemma DiagnosedEffects(w: World, s: State, stderr: string)
    requires HasBothFiles(s.files)
    ensures var r := Diagnosed(w, s, stderr);
      (r.Stop? ==> r.last.ran == s.ran && s.asked < r.last.asked <= s.asked + 8) &&
      (r.Next? ==>
        var t := r.state;
        t.files.Keys == s.files.Keys && t.ran == s.ran && s.asked < t.asked <= s.asked + 8 &&
        ((t.files == s.files["predict.py" := t.files["predict.py"]] &&
          t.command == s.command && t.disk == WriteFiles(s.disk, t.files)) ||
         (t.files == s.files["cog.yaml" := t.files["cog.yaml"]] &&
          t.command == s.command && t.disk == s.disk) ||
         (t.files == s.files && t.disk == WriteFiles(s.disk, s.files))))
  {
    var diagnosis := DiagnoseError(w.replies, s.asked, 0);
    if diagnosis.outcome.Returned? {
      var error := ParseCogPredictError(stderr, DefaultMaxLength);
      var s2 := s.(excerpts := s.excerpts + [error], asked := diagnosis.after);
      RepairForTouchesOne(w, s2, diagnosis.outcome.value);
    }
  }

  /** An attempt that goes on changed one thing of the loop's state, made
      one run, and asked at most eight requests. */
  lemma RepairTouchesOne(w: World, s: State, attempt: nat)
    requires attempt < MaxAttempts && HasBothFiles(s.files)
    ensures var r := Attempt(w, s, attempt);
      r.Next? ==>
        var t := r.state;
        t.files.Keys == s.files.Keys && t.ran == s.ran + 1 &&
        s.asked < t.asked <= s.asked + 8 &&
        ((t.files == s.files["predict.py" := t.files["predict.py"]] &&
          t.command == Rewritten(s.command) && t.disk == WriteFiles(s.disk, t.files)) ||
         (t.files == s.files["cog.yaml" := t.files["cog.yaml"]] &&
          t.command == Rewritten(s.command) && t.disk == s.disk) ||
         (t.files == s.files && t.disk == WriteFiles(s.disk, s.files)))
  {
    var launched := LaunchAt(w, s, attempt);
    if launched.FailedRun? {
      DiagnosedEffects(w, launched.state, launched.stderr);
    }
  }

  /** The next attempt's rewrite of a command the loop rewrote already
      changes nothing and creates no file. */
  lemma RewriteOnceSuffices(w: World, s: State, attempt: nat)
    requires attempt < MaxAttempts && HasBothFiles(s.files)
    ensures var r := Attempt(w, s, attempt);
      r.Next? && r.state.command == Rewritten(s.command) ==>
        CreateFiles(r.state.command) == (Returned(r.state.command), [])
  {
    CreateFilesAgain(s.command);
  }

  /** The loop runs `cog predict` at most `MaxAttempts` times; when it gives
      up it ran all of them; it never asks more than eight requests per
      repaired attempt. */
  lemma {:induction false} RunBounded(w: World, s: State, attempt: nat)
    requires attempt < MaxAttempts && HasBothFiles(s.files)
    decreases MaxAttempts - attempt
    ensures var (e, t) := Run(w, s, attempt);
      s.ran <= t.ran <= s.ran + (MaxAttempts - attempt) &&
      (e == GaveUp ==> t.ran == s.ran + (MaxAttempts - attempt)) &&
      s.asked <= t.asked <= s.asked + 8 * (MaxAttempts - 1 - attempt)
  {
    match Attempt(w, s, attempt)
    case Stop(e, t) =>
      AttemptStopBounds(w, s, attempt);
      assert Run(w, s, attempt) == (e, t);
    case Next(t) =>
      AttemptNextBounds(w, s, attempt);
      RunBounded(w, t, attempt + 1);
      assert Run(w, s, attempt) == Run(w, t, attempt + 1);
  }

  /** What an attempt that goes on has used: one run and one to eight
      requests. */
  lemma AttemptNextBounds(w: World, s: State, attempt: nat)
    requires attempt < MaxAttempts && HasBothFiles(s.files)
    ensures var r := Attempt(w, s, attempt);
      r.Next? ==> r.state.ran == s.ran + 1 && s.asked < r.state.asked <= s.asked + 8
  {
    RepairTouchesOne(w, s, attempt);
  }

  /** What an attempt that stops has used. */
  lemma AttemptStopBounds(w: World, s: State, attempt: nat)
    requires attempt < MaxAttempts && HasBothFiles(s.files)
    ensures var r := Attempt(w, s, attempt);
      r.Stop? ==>
        s.ran <= r.last.ran <= s.ran + 1 &&
        (r.ending == GaveUp ==> r.last.ran == s.ran + 1 && attempt == MaxAttempts - 1) &&
        s.asked <= r.last.asked <= s.asked + 8 &&
        (attempt == MaxAttempts - 1 ==> r.last.asked == s.asked)
  {
    var launched := LaunchAt(w, s, attempt);
    if launched.FailedRun? {
      DiagnosedEffects(w, launched.state, launched.stderr);
    }
  }

  /** One step of the loop. */
  lemma RunSteps(w: World, s: State, attempt: nat)
    requires attempt < MaxAttempts && HasBothFiles(s.files)
    ensures var r := Attempt(w, s, attempt);
      (r.Stop? ==> Run(w, s, attempt) == (r.ending, r.last)) &&
      (r.Next? ==> Run(w, s, attempt) == Run(w, r.state, attempt + 1))
  {
  }

  /** The state the loop starts in: the generated files written, and the
      command the next reply gives. */
  function Start(w: World, files: map<string, string>, disk: map<string, string>, asked: nat, ran: nat): State {
    var gen := GenerateCogPredictCommand(w.replies, asked);
    State(files, gen.outcome.value, WriteFiles(disk, files), [], [], gen.after, ran)
  }

  /** The first half of the loop body as it runs. */
  method LaunchOnce(w: World, s: State, attempt: nat) returns (r: Launch)
    requires attempt < MaxAttempts
    ensures r == LaunchAt(w, s, attempt)
  {
    var made, created := CreateFilesForCommand(s.command);
    assert (made, created) == CreateFiles(s.command);
    var t := s.(inputs := s.inputs + created);
    if made.Raised? {
      return Finished(Crashed(made.error), t);
    }
    t := t.(command := made.value, ran := s.ran + 1);
    var proc := w.runs(s.ran, s.disk, made.value);
    var result := RunCogPredict(proc.lines, proc.returncode, w.verbose);
    if result.Raised? {
      return Finished(Crashed(result.error), t);
    }
    var (success, stderr) := result.value;
    if success {
      return Finished(Succeeded, t);
    }
    if attempt == MaxAttempts - 1 {
      return Finished(GaveUp, t);
    }
    return FailedRun(t, stderr);
  }

  /** One pass of the loop body: create the inputs, run the command, and
      on a failure that is not the last, diagnose and repair. */
  method AttemptOnce(w: World, s: State, attempt: nat) returns (step: Step)
    requires attempt < MaxAttempts && HasBothFiles(s.files)
    ensures step == Attempt(w, s, attempt)
  {
    var launched := LaunchOnce(w, s, attempt);
    if launched.Finished? {
      return Stop(launched.ending, launched.last);
    }
    var t, stderr := launched.state, launched.stderr;
    var error := ParseCogPredictError(stderr, DefaultMaxLength);
    var diagnosis := DiagnoseError(w.replies, t.asked, 0);
    t := t.(excerpts := t.excerpts + [error], asked := diagnosis.after);
    if diagnosis.outcome.Raised? {
      return Stop(Crashed(diagnosis.outcome.error), t);
    }
    step := RepairFor(w, t, diagnosis.outcome.value);
  }

  /** `autocog` from `write_files(repo_path, files)` on, with `asked` the
      first reply and `ran` the first process not yet used. */
  method Autocog(w: World, files: map<string, string>, disk: map<string, string>, asked: nat, ran: nat)
    returns (ending: Ending, s: State)
    requires HasBothFiles(files)
    ensures (ending, s) == Run(w, Start(w, files, disk, asked, ran), 0)
  {
    s := State(files, "", WriteFiles(disk, files), [], [], asked, ran);
    var gen := GenerateCogPredictCommand(w.replies, s.asked);
    s := s.(command := gen.outcome.value, asked := gen.after);
    ghost var s0 := s;
    for attempt := 0 to MaxAttempts
      invariant attempt < MaxAttempts && HasBothFiles(s.files)
      invariant Run(w, s0, 0) == Run(w, s, attempt)
    {
      var step := AttemptOnce(w, s, attempt);
      RunSteps(w, s, attempt);
      if step.Stop? {
        return step.ending, step.last;
      }
      s := step.state;
    }
    assert false;
  }
}
