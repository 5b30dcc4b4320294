# AutoCog, modelled in Dafny

AutoCog turns a Python machine-learning repository into a Cog model. It works in four steps:

1. It asks a language model which Python files matter.
2. It asks for a `predict.py` and a `cog.yaml`.
3. It runs `cog predict`.
4. It repairs one of the three on failure, up to a fixed number of attempts.

This project models the logic around the language-model replies and the `cog` processes. The replies and the processes are inputs, which leaves sequential, checkable logic.

The covered pieces are:

- the repair loop;
- its retries that check labels and paths;
- the file-marker format the replies use;
- the classification of `cog predict` runs and the error excerpt;
- the chat transcript and its save and load;
- the bounded retry decorator;
- the pickle cache;
- the dotfile and `cog.yaml` writers;
- the OpenAPI `$ref` denormaliser.

Modules follow the source files:

| module | source |
|---|---|
| `Markers`, `PredictError`, `PredictCommand`, `FilesPrompt`, `Repair`, `AutocogLoop` | `autocog/autocog.py` |
| `Ai` (class `AI`), `Transcript` | `autocog/ai.py` |
| `Agents` | `autocog/agents.py` |
| `CogCli` (class `Workdir`) | `autocog/cog.py` |
| `CogTool` | `autocog/tools/cog.py` |
| `Retry` | `autocog/retry.py` |
| `Cache` (class `Store`) | `autocog/cache.py` |
| `OpenApi` | `autocog/replicate_model.py` |

`Wrappers` and `Strings` hold the Python values and the `str` methods the modules share:

- `Outcome` is a value or a raised exception.
- `Asked` is an outcome plus the index of the next oracle reply.
- The `str` methods are `strip`, `split`, `splitlines`, `readlines`, `join`, slicing with negative indices, and `upper`/`lower`.

Oracles are modelled as follows:

- The `n`-th reply of the language model is `replies(n)`.
- A `cog predict` process is its decoded stderr lines and its exit code.
- The `patch` tool, `ast`, `importlib.util.find_spec`, PyPI and `yaml.dump` are function parameters.
- The transcript file and the cache directory are fields of the classes that own them. A missing file is `None`, or a key that is absent.

## Model

| member | source | states |
|---|---|---|
| Markers.MarkersDiffer | autocog/autocog.py:18-23 | the start marker of any filename differs from the end marker of any filename |
| Markers.FileFromResponse | autocog/autocog.py:325-330 | a failure is the TypeError of subscripting the None that `search` returns; a result has no surrounding whitespace |
| Markers.FileFromResponseFailsIffUnmarked | autocog/autocog.py:325-330 | extraction fails exactly when no match of the start marker is followed by a match of the end marker |
| Markers.FileFromResponsePlain | autocog/autocog.py:325-330 | round trip: text `c` placed on its own lines between the first start marker and the next end marker comes back as `strip(c)` |
| Markers.FileFromResponseFenced | autocog/autocog.py:325-330 | round trip: text `c` fenced as "\n```lang\n" … "\n```\n" with a lower-case tag comes back as `strip(c)`, the fence dropped |
| Markers.DotMatchesAnyChar | autocog/autocog.py:327 | the unescaped filename makes the start marker of `cog.yaml` match the start marker of `cog_yaml`, a different text |
| Markers.ExtractFile | autocog/agents.py:237-249 | a failure is ValueError "Failed to generate <filename>"; a result has no surrounding whitespace |
| Markers.ExtractFileFailsIffUnmarked | autocog/agents.py:245-249 | the agents' extraction fails exactly when no start marker is followed by an end marker, so on the same responses as `file_from_openai_response` |
| Markers.ExtractFileRoundTrip | autocog/agents.py:245-249 | round trip: whatever lies between the first start marker and the next end marker comes back stripped |
| PredictError.Section | autocog/autocog.py:407-410 | with "Running prediction...\n" present, the text after its first occurrence cut at the next one (there is an index where it occurs and nowhere before, and the result is the part after it up to the next occurrence); without it, all of stderr |
| Strings.SplitFirst | autocog/autocog.py:408-410 | `s.split(sep)[0]`: a prefix of `s` that holds no `sep` and starts no occurrence of it before its end; the whole text exactly when `sep` is absent, and followed by `sep` otherwise |
| Strings.SplitSecond | autocog/autocog.py:407-408 | `s.split(sep)[1]`: present exactly when `sep` occurs; then the text after the first occurrence, up to the next one, free of `sep` |
| PredictError.ErrorSegment | autocog/autocog.py:408-410 | a prefix of the section without "panic: ", followed by "panic: " when the section holds one and the whole section otherwise |
| PredictError.ParseCogPredictError | autocog/autocog.py:406-412 | a suffix of the segment of length min(length, max\_length) for a positive bound, the whole segment for 0, and never holding "panic: " |
| PredictError.ExcerptInStderr | autocog/autocog.py:406-412 | the excerpt occurs in stderr |
| PredictCommand.FindAll | autocog/autocog.py:364 | every name found is a non-empty run of `[\w.]` characters, `\w` read as ASCII |
| PredictCommand.FindAllIsReferences | autocog/autocog.py:364 | with `\w` read as ASCII word characters, the names `re.findall(r"@([\w.]+)")` returns are the `@name` references, defined independently, found anywhere in the command, and there are none exactly when there are no references |
| PredictCommand.RewriteAllReferences | autocog/autocog.py:366-370 | after the replacements, a reference is left only if it was in the command and no rewritten name starts it |
| PredictCommand.NoReferenceLeft | autocog/autocog.py:366-370 | when every reference starts with a rewritten name, the rewritten command holds no reference |
| PredictCommand.RewriteIdempotent | autocog/autocog.py:363-373 | after one pass no `@name` matches (`@/tmp/…` cannot), so a second pass finds nothing and changes nothing |
| PredictCommand.FileTypeIsLastPart | autocog/autocog.py:377 | `split(".")[-1]` is the dot-free suffix after the last dot, or the whole name |
| PredictCommand.CreateEmptyFile | autocog/autocog.py:376-403 | whether the file of a path is created, by the type after its last dot; the outcome per type is stated by `CreateEmptyFileOutcome` |
| PredictCommand.CreateEmptyFileOutcome | autocog/autocog.py:376-403 | jpg, png, mp3, txt, mp4 and avi succeed; wav fails with the NameError of the unimported `np`; any other type gives ValueError "Unsupported file type" |
| PredictCommand.Leftover | autocog/autocog.py:385-403 | of the failing types, `wav` leaves its file, which `wave.open` created before the NameError, and a refused type leaves none |
| PredictCommand.FirstUncreatable | autocog/autocog.py:366-371 | the first input whose empty file cannot be created, with every earlier one created |
| PredictCommand.CreateFiles | autocog/autocog.py:363-403 | the outcome of the whole step and the files it creates, as a value; `CreateFilesForCommand` is proved equal to it and `CreateFilesAgain` is about it |
| PredictCommand.CreateFilesForCommand | autocog/autocog.py:363-373 | the loop returns the command with every input rewritten to /tmp and creates all the files, or raises the first failing file's error after creating the ones before it and, for a `wav`, the failing file itself |
| PredictCommand.CreateFilesAgain | autocog/autocog.py:499-501 | on a command it has already rewritten, the step returns it unchanged and creates no file |
| FilesPrompt.WithProjectFiles | autocog/autocog.py:201-206 | requirements.txt goes first, then README.md, then the given paths, each only when present |
| FilesPrompt.BlockLength | autocog/autocog.py:217-219 | a block adds exactly the markers, newlines and blank line around the file's text |
| FilesPrompt.PromptKeepsPrefix | autocog/autocog.py:208-221 | the prompt built so far is kept as a prefix |
| FilesPrompt.PromptWhole | autocog/autocog.py:208-223 | when everything fits under `max_length`, the prompt is the instruction followed by every block, untruncated and in order |
| FilesPrompt.BuildFilesPrompt | autocog/autocog.py:196-223 | the loop inserts the project files into the caller's list and builds the prompt the truncating rule defines |
| FilesPrompt.PromptOverrun | autocog/autocog.py:208-221 | as written, when the instruction and a first file fill `max_length` exactly, a second file longer than the first file's markers is cut by a negative index: the prompt is `max_length` plus the second file's markers plus all of its text, beyond the budget plus the markers |
| FilesPrompt.PromptOverrunInProgram | autocog/autocog.py:196-227 | the same with the program's numbers: with the 286-character instruction, `max_length` 10000, a 9714-character requirements.txt and a README.md longer than 63 characters, the prompt has 10049 plus the README's length characters, more than 10000 plus the markers |
| FilesPrompt.CappedPromptWithin | autocog/autocog.py:208-221 | with the cut clamped at zero, the prompt grows by at most the budget plus the markers |
| FilesPrompt.CappedPromptBound | autocog/autocog.py:213-214 | with the clamp, the prompt is at most `max_length` plus the markers of the files offered |
| Repair.DiagnoseError | autocog/autocog.py:415-424 | it asks at most 4 times; a result is a valid label and the last reply; a failure is ValueError "Failed to diagnose error" after four invalid replies |
| Repair.DiagnoseFailsIffNoLabel | autocog/autocog.py:419-424 | the diagnosis fails exactly when none of the four replies is `predict.py`, `cog.yaml` or `cog_predict` |
| Repair.OrderListed | autocog/autocog.py:173-193 | no Python files gives ValueError "<repo> has no Python files" with no request; otherwise at most 6 requests, and a returned list has exactly the set of the paths |
| Repair.OrderListedFailsIff | autocog/autocog.py:187-192 | from any attempt, ordering fails exactly when none of the remaining replies lists the set of paths |
| Repair.OrderPaths | autocog/autocog.py:173-193 | `order_paths` from its first attempt; `OrderPathsReturned` and `OrderPathsFailsIffNoMatch` state what it gives |
| Repair.OrderPathsReturned | autocog/autocog.py:188-193 | a returned ordering holds exactly the discovered paths |
| Repair.OrderPathsFailsIffNoMatch | autocog/autocog.py:187-192 | ordering fails exactly when none of the six replies lists the set of paths |
| Repair.StripLeadingFence | autocog/autocog.py:429-433 | the group is a suffix of the reply, and the whole reply when it does not open with a fence |
| Repair.StripLeadingFenceKeepsClosing | autocog/autocog.py:429-433 | a fenced reply loses its opening fence but keeps its closing "\n```", since the greedy group swallows it |
| Repair.FixApplied | autocog/autocog.py:434-440 | at most 4 requests; a result is the patch the last reply gives; after four failed patches, ValueError "Failed to generate patch" |
| Repair.FixAppliedEarlierFailed | autocog/autocog.py:434-440 | every reply before the one the retry ends on is a patch that failed to apply |
| Repair.FixAppliedFailsIff | autocog/autocog.py:434-440 | the retry fails exactly when none of the remaining replies gives a patch that applies |
| Repair.FixPredictPy | autocog/autocog.py:427-440 | `fix_predict_py` from its first attempt, the patch tool a parameter; `FixPredictPyOutcome` states what it gives |
| Repair.FixPredictPyOutcome | autocog/autocog.py:427-440 | `fix_predict_py` asks at most 4 times, returns the first unfenced reply the patch tool applies, and raises ValueError exactly when all four fail |
| Repair.FixCogYaml | autocog/autocog.py:442-448 | one request, and the new `cog.yaml` is a suffix of the reply |
| Repair.PredictResult | autocog/autocog.py:354-360 | success is exit code 0 alone; stderr comes back in both cases; in quiet mode a success without "Running prediction..." raises IndexError |
| Repair.RunCogPredict | autocog/autocog.py:340-360 | the line loop gives the outcome `PredictResult` defines |
| AutocogLoop.WriteFiles | autocog/autocog.py:333-337 | every file given is written, and other files on disk stay as they were |
| AutocogLoop.LaunchAt | autocog/autocog.py:498-508 | a failed run before the last attempt keeps the files and the disk, rewrites the command and uses one process; giving up happens only at the last attempt |
| AutocogLoop.RepairFor | autocog/autocog.py:517-525 | a repair keeps both files present |
| AutocogLoop.Diagnosed | autocog/autocog.py:516-525 | a diagnosis then a repair keeps both files present |
| AutocogLoop.Attempt | autocog/autocog.py:498-525 | an attempt that goes on is not the last, and keeps both files present |
| AutocogLoop.AttemptSucceeds | autocog/autocog.py:502-504 | an attempt succeeds exactly when the inputs are created and the exit code is 0 (and, in quiet mode, "Running prediction..." is in stderr); it then asks nothing and changes no file |
| AutocogLoop.LastFailureGivesUp | autocog/autocog.py:506-508 | a failure at the last attempt stops with exit status 1, with no diagnosis and no repair |
| AutocogLoop.RepairForTouchesOne | autocog/autocog.py:518-525 | `predict.py` changes only `files["predict.py"]` and writes the files; `cog.yaml` changes only `files["cog.yaml"]`, in memory; `cog_predict` changes only the command and writes the files |
| AutocogLoop.DiagnosedEffects | autocog/autocog.py:516-525 | diagnosing and repairing together change one of the three, as above, and ask at most 8 requests |
| AutocogLoop.RepairTouchesOne | autocog/autocog.py:498-525 | an attempt that goes on made one run and changed exactly one of `predict.py`, `cog.yaml` or the command |
| AutocogLoop.RewriteOnceSuffices | autocog/autocog.py:499-501 | the next attempt's file creation leaves a rewritten command unchanged and creates nothing |
| AutocogLoop.AttemptStopBounds | autocog/autocog.py:502-508 | an attempt that stops used at most one run and 8 requests, and a give-up ran once at the last attempt |
| AutocogLoop.Run | autocog/autocog.py:498-525 | the loop over the attempts, from an attempt number; `RunBounded` and `RunSteps` state what it does |
| AutocogLoop.AttemptNextBounds | autocog/autocog.py:502-526 | an attempt that goes on made one run and asked between one and 8 requests |
| AutocogLoop.RunBounded | autocog/autocog.py:498-508 | the loop runs `cog predict` at most `MAX_ATTEMPTS` times, exactly that many when it gives up, and asks at most 8 requests per repaired attempt |
| AutocogLoop.RunSteps | autocog/autocog.py:498-525 | a stopping attempt ends the loop there, and otherwise the loop continues from the repaired state |
| AutocogLoop.LaunchOnce | autocog/autocog.py:499-508 | the first half of the loop body as statements equals `LaunchAt` |
| AutocogLoop.AttemptOnce | autocog/autocog.py:498-525 | one loop body as statements equals `Attempt` |
| AutocogLoop.Start | autocog/autocog.py:496-497 | the state before the loop: the generated files written to disk and the command the next reply gives |
| AutocogLoop.Autocog | autocog/autocog.py:496-525 | from the generated files, the loop ends as `Run` defines, from the state left by writing the files and asking for a command |
| Ai.Wrap | autocog/ai.py:47-48 | a string becomes exactly one user message holding it, and a list is passed as it is |
| Ai.Ask | autocog/ai.py:50-75 | the provider is asked until it answers or fails otherwise than by a rate limit; only rate-limit errors are retried; the answer is the last reply's text |
| Ai.NoRetryOtherwise | autocog/ai.py:67-75 | an error that is not a rate limit propagates from the first call |
| Ai.RetriedUntilReply | autocog/ai.py:67-74 | after `k` rate-limit errors and then a reply, that reply is returned from the `k+1`-th call |
| Ai.AI.constructor | autocog/ai.py:12-26 | a new AI holds the system prompt and an empty history |
| Ai.AI.Call | autocog/ai.py:44-75 | the provider sees the old history then the new messages; success appends them and one assistant turn and rewrites the transcript; failure changes nothing |
| Ai.AI.SaveChatHistory | autocog/ai.py:125-131 | the transcript is the SYSTEM section, then one upper-cased section per history entry in order |
| Ai.AI.ClearHistory | autocog/ai.py:120-123 | the history is empty and the file gone, whether or not it existed |
| Ai.AI.LoadChatHistory | autocog/ai.py:133-163 | the history is emptied first; a missing file raises FileNotFoundError; otherwise the prompt and history are those the line reader collects |
| Ai.AI.FlushSection | autocog/ai.py:144-152 | a section with a role and content sets the system prompt or appends a lower-cased entry, and empties the content |
| Transcript.Serialize | autocog/ai.py:127-131 | the text `save_chat_history` writes: the SYSTEM section, then one upper-cased section per entry; `RoundTrip` and `NoReturns` are about it |
| Transcript.Load | autocog/ai.py:133-163 | what `load_chat_history` keeps from a text: the last SYSTEM section's content, or the prompt there was, and the other sections in order; `RoundTrip`, `PreambleCarried` and `EmptySectionDropped` are about it |
| Transcript.RoundTrip | autocog/ai.py:125-163 | save then load gives back the system prompt and the history with roles lower-cased, for contents of unpadded, non-blank lines not of the form "## …:" |
| Transcript.PreambleCarried | autocog/ai.py:141-155 | lines before the first header are not discarded: they join the first section's content |
| Transcript.EmptySectionDropped | autocog/ai.py:143-153 | a header directly followed by another header yields no entry |
| Transcript.NoReturns | autocog/ai.py:125-131 | a saved transcript holds no carriage return, so newline translation on reading changes nothing |
| Retry.Tries | autocog/retry.py:5-18 | at most `attempts` calls; every call but the last raised an Exception; a result is the last call's; a re-raised Exception is the last call's after all attempts; `attempts <= 0` makes no call and returns None |
| Retry.Retry | autocog/retry.py:8-18 | the `for attempt` loop makes the calls and returns what `Tries` defines |
| Retry.SucceedsOnAttempt | autocog/retry.py:9-11 | when call `k` is the first that does not raise, the result is its value after exactly `k` calls |
| Retry.GivesUpWithLast | autocog/retry.py:12-18 | when all calls raise an Exception, the last one is re-raised after `attempts` calls |
| Cache.Stored | autocog/cache.py:27-33 | after a wrapped call the entry exists; an existing entry is kept, and otherwise the computed value is stored |
| Cache.Purged | autocog/cache.py:38-41 | exactly the entries of other repositories remain, unchanged |
| Cache.Store.Read | autocog/cache.py:16-18 | the stored value, or FileNotFoundError when absent |
| Cache.Store.Write | autocog/cache.py:20-22 | the entry is created or replaced, and nothing else changes |
| Cache.Store.Cached | autocog/cache.py:24-35 | a stored value is returned with no call of the function and the store unchanged; otherwise it is called once: a returned result is stored and returned, a raised exception propagates and nothing is stored |
| Cache.Store.PurgeCache | autocog/cache.py:38-41 | the store afterwards is the purged store |
| Cache.CachedIdempotent | autocog/cache.py:28-33 | a second call with the same repository and name returns the first result and changes nothing |
| Cache.KeyIgnoresArgs | autocog/cache.py:27-30 | once stored, the result does not depend on the other arguments |
| Cache.PurgeIdempotent | autocog/cache.py:38-41 | purging twice is purging once, and purging a repository with no cache changes nothing |
| Cache.PurgeThenCached | autocog/cache.py:24-41 | after a purge, the next wrapped call computes afresh |
| OpenApi.Lookup | autocog/replicate_model.py:95 | None exactly when no field has the key; otherwise the value of a field with it |
| OpenApi.Index | autocog/replicate_model.py:89 | subscripting succeeds exactly on an object that has the key |
| OpenApi.RefsOf | autocog/replicate_model.py:88-90 | the ref map's keys are exactly "#/components/schemas/<name>" for the component schemas |
| OpenApi.RefsOfDistinct | autocog/replicate_model.py:88-90 | a schema whose name is unique is the value under its key |
| OpenApi.BuildRefMap | autocog/replicate_model.py:88-90 | the loop gives the ref map, or the KeyError of a missing `components` or `schemas` |
| OpenApi.RefTarget | autocog/replicate_model.py:95 | an object has a target exactly when its `$ref` is a string in the ref map |
| OpenApi.Resolve | autocog/replicate_model.py:93-106 | `resolve_refs`, with `fuel` standing for the recursion limit; what it does to each kind of value is stated by `ReplacedWholesale`, `KeysKept`, `ListKept` and `ScalarsKept` |
| OpenApi.ReplacedWholesale | autocog/replicate_model.py:95-99 | an object with a known `$ref` becomes the resolved target; its sibling keys are dropped |
| OpenApi.KeysKept | autocog/replicate_model.py:101-102 | an object without a known `$ref` keeps its keys in order, each value resolved |
| OpenApi.ListKept | autocog/replicate_model.py:103-105 | a list keeps its length, resolved item by item |
| OpenApi.ScalarsKept | autocog/replicate_model.py:106 | scalars come back unchanged |
| OpenApi.RefFreeUnchanged | autocog/replicate_model.py:93-106 | a tree with no known reference comes back unchanged |
| OpenApi.SelfReferenceExhausts | autocog/replicate_model.py:97-99 | a schema that refers to itself never resolves: the recursion limit is hit |
| OpenApi.DenormalizeRefs | autocog/replicate_model.py:84-109 | the KeyError of a missing `components` or `schemas`, otherwise `resolve_refs` over the whole schema with the ref map of `RefsOf`; `RefFreeUnchanged` and `SelfReferenceExhausts` are about it |
| CogCli.Captured | autocog/cog.py:19-26 | the stderr lines the loop reads, up to and including the first that holds the sentinel; `CapturedStops` and `CapturedAppend` state it |
| CogCli.CapturedStops | autocog/cog.py:19-26 | the captured lines are a prefix of the output; only the last can hold "Model setup failed"; without one, all lines are captured |
| CogCli.CapturedAppend | autocog/cog.py:19-26 | lines without the sentinel are all captured, and reading goes on after them |
| CogCli.Predict | autocog/cog.py:13-33 | stderr is the concatenation of the lines up to and including the first sentinel line; success is exit code 0 and no "Traceback (most recent call last)"; stderr comes back in both cases; the `predict` of autocog/tools/cog.py (lines 8-30) is the same loop and is modelled by this member too |
| CogCli.Missing | autocog/cog.py:122 | a line is in the result exactly when it is to be added and the file lacks it, and the result is no longer than the lines to add |
| CogCli.MissingAppend | autocog/cog.py:122 | the comprehension is an order-preserving filter: one line gives itself or nothing as the file has it, and the lines of two parts follow each other, so duplicates and their order are kept |
| CogCli.Dotfile | autocog/cog.py:113-131 | the text `add_lines_to_dotfile` leaves; `DotfileLines`, `DotfileHasLines` and `DotfileIdempotent` state what it holds |
| CogCli.DotfileHasLines | autocog/cog.py:113-131 | afterwards every line to add is a line of the file, and the old text and its lines are kept as a prefix |
| CogCli.DotfileLines | autocog/cog.py:113-131 | with nothing missing the file is untouched; a new file has exactly the missing lines; an existing one has exactly its old lines, one empty line when the separator follows a final terminator other than `\r`, then the missing lines in order |
| CogCli.DotfileIdempotent | autocog/cog.py:122-124 | adding the same lines a second time leaves the file unchanged |
| CogCli.TrailingNewlineGainsBlankLine | autocog/cog.py:128-131 | the separator tests the last line, not the final newline: "x\n" becomes "x\n\n.cog\n" |
| CogCli.CogConfig | autocog/cog.py:71-86 | the config `write_files` builds, in its key order; `CogConfigKeys` states what it holds |
| CogCli.CogConfigKeys | autocog/cog.py:71-86 | the config always has gpu, python\_version, python\_requirements "cog\_requirements.txt" and predict "predict.py:<class>"; cuda is present exactly when given; system\_packages exactly when non-empty |
| CogCli.Workdir.AddLinesToDotfile | autocog/cog.py:113-133 | the file becomes the merged dotfile, created when absent, and no other file changes |
| CogCli.Workdir.WriteFiles | autocog/cog.py:36-110 | predict.py, cog\_requirements.txt (the requirements joined by "\n") and the dumped config are written, then both dotfiles are merged |
| CogTool.WriteFiles | autocog/tools/cog.py:33-38 | cog.yaml and predict.py hold exactly the given text, and no other file changes |
| Agents.CollectStderr | autocog/agents.py:381-387 | stderr is the in-order concatenation of the decoded lines |
| Agents.RunCogPredict | autocog/agents.py:374-379 | success is a return code of exactly 0 and no Traceback marker; an unset code is a failure |
| Agents.UnwaitedRunFails | autocog/agents.py:375-377 | as written, with the code unread, even a clean run with nothing on stderr fails, though waiting would have passed it |
| Agents.RunCogPredictWaited | autocog/agents.py:374-379 | with the code read after `wait()`, success is exit code 0 and no Traceback marker, the same rule as `cog.predict` |
| Agents.TruncateError | autocog/agents.py:319-320 | a prefix of the error, of length min(length, max\_length) for a non-negative bound |
| Agents.DiagnoseOnce | autocog/agents.py:314-317 | both replies needed; the flag is true exactly when the second reply is "True"; a failure is the first failing call's |
| Agents.DiagnoseError | autocog/agents.py:313-317 | `diagnose_error` under `retry(5)`, each attempt shown the truncated error; `DiagnoseErrorOutcome` states what it gives |
| Agents.DiagnoseErrorOutcome | autocog/agents.py:313-317 | at most five attempts, each shown the first 10000 characters; a result is the last attempt's, and every earlier attempt raised |
| Agents.PackageVersions | autocog/agents.py:113-124 | an unpinned name gives the project's versions or None; a pinned one gives one version without "==" |
| Agents.PinnedVersion | autocog/agents.py:122-123 | "name==v" gives exactly {v} |
| Agents.AgentOrderPaths | autocog/agents.py:41-55 | no files is ValueError "<repo> has no Python files"; a rejected reply is ValueError "Failed to order paths"; an accepted one is the reply's lines joined to the repository path, in the reply's order, each among those found |
| Agents.OrderingAcceptedIffKnown | autocog/agents.py:48-55 | with files found, the reply is accepted exactly when every line of it names a file found, omissions and reordering allowed |
| Agents.EmptyOrderingAccepted | autocog/agents.py:50-53 | an empty reply is accepted as an empty ordering |
| Agents.Sorted | autocog/agents.py:144 | `sorted` of a list without repeats gives an ascending list of the same elements and the same length, so a permutation |
| Agents.Root | autocog/agents.py:161 | a prefix of the name holding no "."; the whole name when there is none, and otherwise followed by "." in the name |
| Agents.BaseName | autocog/agents.py:137 | the last part of a path: a suffix holding no "/" |
| Agents.BaseNameAfterSlash | autocog/agents.py:137 | the last part is the whole path or comes right after a "/", so it is the longest such suffix |
| Agents.ExtractImports | autocog/agents.py:158-166 | the roots of the imported module names |
| Agents.FilterStandardLibraries | autocog/agents.py:168-181 | exactly the packages that are not standard libraries, each once |
| Agents.GetImportedPackages | autocog/agents.py:126-144 | an ascending list of exactly the roots imported by the Python files that are not standard libraries |
| Agents.FixAttempt | autocog/agents.py:331-341 | as written every attempt raises: AttributeError, before any request, when the prompt is not a name of autocog/prompts.py; otherwise the request's error, or NameError for `file_start` once a reply arrives |
| Agents.CogFixPromptMissing | autocog/agents.py:333 | `fix_cog_yaml` is none of the names autocog/prompts.py defines |
| Agents.PredictFixPromptMissing | autocog/agents.py:353 | `fix_predict_py` is none of the names autocog/prompts.py defines |
| Agents.FixFile | autocog/agents.py:331-361 | `fix_cog_yaml` and `fix_predict_py` under `retry(5)`, by their prompt name; `FixFileNeverReturns` states what they give |
| Agents.FixFileNeverReturns | autocog/agents.py:331-361 | whatever the replies, both fixing agents make five attempts that each raise AttributeError for their prompt before asking, and re-raise it |
| Agents.FixFileWithPromptNameError | autocog/agents.py:336-341 | were the prompt defined, five answered attempts would each raise NameError for `file_start`, and the fifth would escape |
| Agents.CorrectedFixAttempt | autocog/agents.py:356-361 | with a prompt that exists and the markers in place, an attempt succeeds exactly when the agents' extraction does, and gives stripped text |
| Agents.CorrectedFixReturnsMarked | autocog/agents.py:351-361 | with a prompt that exists and the markers in place, a first reply with a marked file gives that file stripped, after one attempt |

## Behaviour worth knowing

- The loop makes `MAX_ATTEMPTS = 3` attempts (autocog/autocog.py:15).
- `diagnose_error` in autocog/autocog.py asks at most four times (attempts 0 to 3).
- `run_cog_predict` in autocog/autocog.py tests the exit code alone. It has no Traceback check.
- In quiet mode, `run_cog_predict` in autocog/autocog.py prints the part after "Running prediction...". A successful run whose stderr lacks that text then raises IndexError.
- `load_chat_history` keeps lines that stand before the first header. Its content list is emptied only when a section is stored, so those lines join the first section.
- The recursive retry in `generate_files` discards its result (autocog/autocog.py:256).
- A `cog.yaml` repair changes the file in memory only (autocog/autocog.py:522). The loop's disk keeps the old text, as `RepairForTouchesOne` states.
- Both marker extractors paste the filename into the regular expression unescaped, so its `.` matches any character.

## Left out

- Network clients are left out, because they are I/O:
  - the provider clients (`_call_openai`, `_call_anthropic`) and `gpt.py`;
  - the streaming loops and the ten-second sleep before a retry.
  Each reply is an oracle value.
- Subprocesses are left out: `Popen`, `kill`, `wait`, and the echo of stderr to the terminal. A process is its decoded lines and exit code.
- `patch` is left out: the temporary files and the external tool. It is a function that gives None on failure.
- Prompt text and the HTTP tools are left out. Prompts are opaque; only the marker strings and the set of names autocog/prompts.py defines matter.
- Language-model calls are treated as follows:
  - `order_paths_prompt`, `diagnose_error_prompt` and the others are not modelled.
  - `call_gpt` is the oracle.
  - The temperature argument is dropped.
- `generate_files` is not modelled. Its context-length error handling depends on the openai exception types. The loop starts from the files it returned.
- `find_python_files`, `_find_python_files`, `_gather_project_files`, `_load_readme_contents` and file reading are left out. Their results are inputs.
- `create_empty_file` is not modelled in full: the images, audio and video it writes are not. Only its success or error by file type is.
- `ast.parse` and `ast.walk` are oracles that give the imported module names. A syntax error in a file is not modelled.
- `importlib.util.find_spec` is an oracle. `sys.builtin_module_names` is a set parameter.
- `get_packages_info` is not modelled. Its PyPI client and the version sorting of `packaging.version` are foreign calls.
- Agents.PackageVersions: the PyPI project page is an oracle, and `NoSuchProjectError` is its None.
- PathOrderingAgent's `repo_path / Path(p)` is a `join` parameter. Path normalisation is not modelled.
- `generate_cog_yaml`, `generate_predict_py` and `generate_predict_command` of the agents are left out. Each is one model call whose reply goes to the extractor modelled in `Markers.ExtractFile`.
- `DocsPullingAgent`, `git.py`, and `cog.login`, `push` and `install_cog` are left out, because they are I/O.
- `yaml.dump` is a parameter of `CogCli.Workdir.WriteFiles`. The model checks the config the code builds, not its YAML text.
- Open-file and permission errors are not modelled, and neither are text decoding and encoding.
- Ai.Ask: the number of rate-limit retries is bounded by a `frames` parameter that stands for Python's recursion limit. Running out of it gives RecursionError.
- OpenApi.Resolve: the depth of `$ref` substitution is bounded by a `fuel` parameter, for the same reason. The deep copies at autocog/replicate_model.py:85 and 97 are implicit, because values are immutable.
- Strings.Upper and Strings.Lower change only ASCII letters.
- PredictCommand.IsWordChar: `\w` is modelled as the ASCII letters, digits and `_`. On `str`, Python's `\w` also matches every other Unicode letter and digit. The Unicode character database is not modelled, so a name holding such characters is cut short or not found.
- PredictCommand.FindAll holds for that ASCII reading of `\w`. On a command whose `@` names hold non-ASCII letters or digits, `re.findall` returns longer names than the model, or names the model misses.
- PredictCommand.FindAllIsReferences holds for the same ASCII reading of `\w`. Both sides use it, so the lemma says nothing about names with non-ASCII letters or digits.
- OpenApi.Json: an object is a list of fields, and the list may repeat a key, which no value `json` loads can do. On such a list `Lookup` takes the first entry and `RefsOf` the last; the members are stated for every list, and `RefsOfDistinct` covers the case of unique names.
- Strings.ReadLines models `readlines` after universal-newline translation. `Transcript.NoReturns` shows the translation has nothing to do on saved text.
- Markers.FileFromResponse and Markers.ExtractFile require filenames whose characters are plain in a regular expression, apart from `.`. Names with other operators would change the pattern and are not modelled.
- Agents.GetImportedPackages: `Path.suffix == ".py"` is modelled as a base name longer than three characters that ends in ".py". Path edge cases beyond that, such as trailing slashes, are not modelled.
- Cache.Key compares the repository path as text. `os.path.join` at autocog/cache.py:9-10 names the same file for paths such as "a" and "a/", but the model keeps them as two entries. Cache.Purged does the same, so purging "a/" leaves the entries of "a".
- Agents.IsStandardLibrary is not modelled for an empty module name, which `find_spec` would reject with ValueError.

## Findings

| source | as written | input that shows it | evidently intended | confidence | as-written member | corrected member |
|---|---|---|---|---|---|---|
| autocog/autocog.py:213-214 | the file that overflows the prompt is cut to `contents[: max_length - len(prompt)]`; once the markers alone pass `max_length`, the index is negative and keeps nearly the whole file | the 286-character instruction, `max_length` 10000 (the last of `generate_files`), a requirements.txt of 9714 characters and a README.md of 100: the prompt has 10149 characters, beyond the 10112 of budget and markers | cut to what is left of the budget, or to nothing | not executed | FilesPrompt.PromptOverrun, FilesPrompt.PromptOverrunInProgram | FilesPrompt.CappedPromptBound |
| autocog/agents.py:374-379 | `proc.returncode` is read after draining stderr but without `wait()`; Popen sets it only in `poll()` or `wait()`, so it is None and every run reports failure | a run that exits 0 with nothing on stderr | wait for the process, then apply the exit code and Traceback rule | not executed | Agents.UnwaitedRunFails | Agents.RunCogPredictWaited |
| autocog/agents.py:331-361 | `fix_cog_yaml` and `fix_predict_py` send `prompts.fix_cog_yaml` and `prompts.fix_predict_py`, which autocog/prompts.py does not define, so each of the five attempts raises AttributeError before any request; were they defined, `_file_from_gpt_response` would next call `file_start` and `file_end`, which agents.py neither defines nor imports, and raise NameError | any call of either fixing agent, whatever the replies | send a prompt that exists and build the pattern from the marker strings, as `_extract_file_from_gpt_response` does | not executed | Agents.FixFileNeverReturns | Agents.CorrectedFixReturnsMarked |

`FilesPrompt.BuildFilesPrompt` models the code as written. The repair loop starts from the files `generate_files` returned, so no other member depends on the prompt's length.
