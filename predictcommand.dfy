/** The rewrite of file inputs in a `cog predict` command
    (`create_files_for_cog_predict_command` in autocog/autocog.py): every
    `@name` input, as `re.findall(r"@([\w.]+)", command)` finds it, is
    pointed at `/tmp/name`, where an empty file of the name's type is
    created. */
module PredictCommand {
  import opened Wrappers
  import opened Strings

  /** `\w` on ASCII text: a letter, a digit or `_`. */
  predicate IsWordChar(c: char) {
    ('a' <= c <= 'z') || ('A' <= c <= 'Z') || ('0' <= c <= '9') || c == '_'
  }

  /** A character of `[\w.]`. */
  predicate IsNameChar(c: char) {
    IsWordChar(c) || c == '.'
  }

  /** A non-empty run of name characters: what the group can capture. */
  predicate IsName(w: string) {
    |w| > 0 && forall i :: 0 <= i < |w| ==> IsNameChar(w[i])
  }

  /** The length of the longest prefix of `s` made of name characters. */
  function NameLength(s: string): (n: nat)
    ensures n <= |s|
    ensures forall i :: 0 <= i < n ==> IsNameChar(s[i])
    ensures n < |s| ==> !IsNameChar(s[n])
  {
    if s != [] && IsNameChar(s[0]) then 1 + NameLength(s[1..]) else 0
  }

  /** A reference at the start of `s`: an `@` with a name character after it. */
  predicate RefAtStart(s: string) {
    |s| >= 2 && s[0] == '@' && IsNameChar(s[1])
  }

  /** The name of the reference at the start of `s`: `[\w.]+` is greedy. */
  function RefName(s: string): (w: string)
    requires RefAtStart(s)
    ensures IsName(w) && w <= s[1..]
  {
    s[1..1 + NameLength(s[1..])]
  }

  /** `re.findall(r"@([\w.]+)", s)`: the captured names, scanning left to
      right and going on after the end of each match. */
  function FindAll(s: string): (r: seq<string>)
    decreases |s|
    ensures forall i :: 0 <= i < |r| ==> IsName(r[i])
  {
    if |s| < 2 then []
    else if RefAtStart(s) then [RefName(s)] + FindAll(s[1 + |RefName(s)|..])
    else FindAll(s[1..])
  }

  /** The names after every `@` of `s` that a name character follows,
      wherever it stands: the reference definition `FindAll` is checked
      against. */
  function References(s: string): (r: set<string>)
    decreases |s|
  {
    if s == [] then {}
    else (if RefAtStart(s) then {RefName(s)} else {}) + References(s[1..])
  }

  /** Text without `@` holds no reference and hides none after it. */
  lemma {:induction false} ReferencesSkip(u: string, v: string)
    requires '@' !in u
    decreases |u|
    ensures References(u + v) == References(v)
  {
    if u != [] {
      assert (u + v)[0] == u[0] && (u + v)[1..] == u[1..] + v;
      assert '@' !in u[1..];
      ReferencesSkip(u[1..], v);
    } else {
      assert u + v == v;
    }
  }

  lemma {:induction false} ReferencesSuffix(s: string, k: nat)
    requires k <= |s|
    decreases k
    ensures References(s[k..]) <= References(s)
  {
    if k > 0 {
      ReferencesSuffix(s[1..], k - 1);
      assert s[1..][k - 1..] == s[k..];
    }
  }

  /** What `FindAll` returns is exactly the set of references. */
  lemma {:induction false} FindAllIsReferences(s: string)
    decreases |s|
    ensures forall w :: w in FindAll(s) <==> w in References(s)
    ensures FindAll(s) == [] <==> References(s) == {}
  {
    if |s| >= 2 {
      if RefAtStart(s) {
        var w := RefName(s);
        var rest := s[1 + |w|..];
        assert '@' !in w;
        assert s[1..] == w + rest;
        ReferencesSkip(w, rest);
        FindAllIsReferences(rest);
      } else {
        FindAllIsReferences(s[1..]);
      }
    } else if |s| == 1 {
      assert s[1..] == [];
    }
  }

  /** `s.replace(pat, repl)`: every occurrence of `pat`, taken left to right
      without overlap, replaced by `repl`. */
  function Replace(s: string, pat: string, repl: string): (r: string)
    requires pat != []
    decreases |s|
  {
    if OccursAt(s, pat, 0) then repl + Replace(s[|pat|..], pat, repl)
    else if s == [] then []
    else [s[0]] + Replace(s[1..], pat, repl)
  }

  /** A prefix without `@` passes a replacement of an `@`-text unchanged. */
  lemma {:induction false} ReplaceSkip(u: string, v: string, pat: string, repl: string)
    requires pat != [] && pat[0] == '@' && '@' !in u
    decreases |u|
    ensures Replace(u + v, pat, repl) == u + Replace(v, pat, repl)
  {
    if u != [] {
      assert (u + v)[0] == u[0] && (u + v)[1..] == u[1..] + v;
      assert (u + v)[0] != pat[0];
      assert '@' !in u[1..];
      ReplaceSkip(u[1..], v, pat, repl);
    } else {
      assert u + v == v;
    }
  }

  /** `os.path.join("/tmp", name)` for a name, which never starts with `/`. */
  function TmpPath(name: string): string {
    "/tmp/" + name
  }

  /** One step of the loop: `command.replace("@" + name, "@" + tmp_path)`. */
  function Rewrite(command: string, name: string): string {
    Replace(command, "@" + name, "@" + TmpPath(name))
  }

  /** The command after the loop has rewritten `names[..]` in order. */
  function RewriteAll(command: string, names: seq<string>): string {
    if names == [] then command
    else Rewrite(RewriteAll(command, names[..|names| - 1]), names[|names| - 1])
  }

  /** What a name run becomes when the text behind it is rewritten. */
  lemma RunAfterRewrite(t: string, name: string)
    requires IsName(name) && t != [] && IsNameChar(t[0])
    ensures var r := Replace(t, "@" + name, "@" + TmpPath(name));
      r != [] && r[0] == t[0] && NameLength(r) == NameLength(t) &&
      r[..NameLength(r)] == t[..NameLength(t)]
  {
    var pat, repl := "@" + name, "@" + TmpPath(name);
    var n := NameLength(t);
    var u, v := t[..n], t[n..];
    assert t == u + v;
    assert '@' !in u by {
      forall i | 0 <= i < |u| ensures u[i] != '@' { assert IsNameChar(t[i]); }
    }
    ReplaceSkip(u, v, pat, repl);
    var rv := Replace(v, pat, repl);
    assert rv == [] || !IsNameChar(rv[0]) by {
      if v != [] {
        if OccursAt(v, pat, 0) {
          assert rv[0] == repl[0] == '@';
        } else {
          assert rv[0] == v[0] == t[n];
        }
      }
    }
    NameLengthOf(u, rv);
  }

  lemma {:induction false} NameLengthOf(u: string, v: string)
    requires forall i :: 0 <= i < |u| ==> IsNameChar(u[i])
    requires v == [] || !IsNameChar(v[0])
    decreases |u|
    ensures NameLength(u + v) == |u|
  {
    if u != [] {
      assert (u + v)[0] == u[0] && (u + v)[1..] == u[1..] + v;
      NameLengthOf(u[1..], v);
    } else {
      assert u + v == v;
    }
  }

  /** Rewriting `name` removes every reference that starts with it and
      introduces none. */
  lemma {:induction false} RewriteReferences(s: string, name: string)
    requires IsName(name)
    decreases |s|, 1
    ensures forall w :: w in References(Rewrite(s, name)) ==>
      w in References(s) && !(name <= w)
  {
    if OccursAt(s, "@" + name, 0) {
      RewriteReferencesAtMatch(s, name);
    } else if s != [] {
      RewriteReferencesPastChar(s, name);
    }
  }

  /** A match is replaced by `@/tmp/name`, whose `@` a `/` follows. */
  lemma {:induction false} RewriteReferencesAtMatch(s: string, name: string)
    requires IsName(name) && OccursAt(s, "@" + name, 0)
    decreases |s|, 0
    ensures forall w :: w in References(Rewrite(s, name)) ==>
      w in References(s) && !(name <= w)
  {
    var pat, repl := "@" + name, "@" + TmpPath(name);
    var rest := s[|pat|..];
    RewriteReferences(rest, name);
    ReferencesSuffix(s, |pat|);
    var tail := TmpPath(name);
    TmpPathHasNoAt(name);
    var rr := Replace(rest, pat, repl);
    var r := Rewrite(s, name);
    assert r == "@" + (tail + rr);
    assert r[1] == '/';
    assert r[1..] == tail + rr;
    ReferencesSkip(tail, rr);
  }

  lemma TmpPathHasNoAt(name: string)
    requires IsName(name)
    ensures '@' !in TmpPath(name)
  {
    var tail := TmpPath(name);
    forall i | 0 <= i < |tail| ensures tail[i] != '@' {
      if i >= 5 { assert IsNameChar(name[i - 5]); }
    }
  }

  /** Away from a match the first character is kept; a reference it starts
      has the same name before and after. */
  lemma {:induction false} RewriteReferencesPastChar(s: string, name: string)
    requires IsName(name) && !OccursAt(s, "@" + name, 0) && s != []
    decreases |s|, 0
    ensures forall w :: w in References(Rewrite(s, name)) ==>
      w in References(s) && !(name <= w)
  {
    var pat, repl := "@" + name, "@" + TmpPath(name);
    var r := Rewrite(s, name);
    var t := s[1..];
    var rr := Replace(t, pat, repl);
    assert r == [s[0]] + rr;
    assert r[1..] == rr;
    RewriteReferences(t, name);
    ReferencesSuffix(s, 1);
    if RefAtStart(r) {
      ReferenceAfterRewrite(s, name);
    }
  }

  /** A reference at the head of the output stood at the head of the input,
      under the same name, and that name does not start with `name`. */
  lemma ReferenceAfterRewrite(s: string, name: string)
    requires IsName(name) && !OccursAt(s, "@" + name, 0) && s != []
    requires RefAtStart(Rewrite(s, name))
    ensures RefAtStart(s) && RefName(Rewrite(s, name)) == RefName(s) && !(name <= RefName(s))
  {
    var pat, repl := "@" + name, "@" + TmpPath(name);
    var r := Rewrite(s, name);
    var t := s[1..];
    var rr := Replace(t, pat, repl);
    assert r == [s[0]] + rr;
    assert r[1..] == rr;
    ReplaceHead(t, pat, repl);
    RunAfterRewrite(t, name);
    assert RefAtStart(s);
    var n := NameLength(rr);
    assert r[1..1 + n] == rr[..n];
    assert s[1..1 + n] == t[..n];
    assert RefName(r) == RefName(s);
    PrefixedReferenceMatches(s, name);
  }

  /** The first character of a replacement's output. */
  lemma ReplaceHead(s: string, pat: string, repl: string)
    requires pat != [] && repl != []
    ensures s == [] ==> Replace(s, pat, repl) == []
    ensures OccursAt(s, pat, 0) ==> Replace(s, pat, repl)[0] == repl[0]
    ensures s != [] && !OccursAt(s, pat, 0) ==> Replace(s, pat, repl)[0] == s[0]
  {
  }

  /** A reference that starts with `name` is a match of `@name`. */
  lemma PrefixedReferenceMatches(s: string, name: string)
    requires IsName(name)
    ensures RefAtStart(s) && name <= RefName(s) ==> OccursAt(s, "@" + name, 0)
  {
    if RefAtStart(s) && name <= RefName(s) {
      var pat := "@" + name;
      forall i | 0 <= i < |pat| ensures s[i] == pat[i] {
        if i > 0 { assert RefName(s)[i - 1] == s[i]; }
      }
      assert s[..|pat|] == pat;
    }
  }

  /** After the loop over `names`, a reference survives only if no name
      rewritten so far starts it. */
  lemma {:induction false} RewriteAllReferences(command: string, names: seq<string>)
    requires forall i :: 0 <= i < |names| ==> IsName(names[i])
    decreases |names|
    ensures forall w :: w in References(RewriteAll(command, names)) ==>
      w in References(command) && forall i :: 0 <= i < |names| ==> !(names[i] <= w)
  {
    if names != [] {
      var init := names[..|names| - 1];
      RewriteAllReferences(command, init);
      RewriteReferences(RewriteAll(command, init), names[|names| - 1]);
    }
  }

  /** Rewriting every name found leaves no reference: a second pass, as the
      repair loop makes on every attempt, finds nothing and changes
      nothing. */
  lemma RewriteIdempotent(command: string)
    ensures var c := RewriteAll(command, FindAll(command));
      FindAll(c) == [] && RewriteAll(c, FindAll(c)) == c
  {
    var names := FindAll(command);
    FindAllIsReferences(command);
    forall w | w in References(command)
      ensures exists i :: 0 <= i < |names| && names[i] <= w
    {
      var i :| 0 <= i < |names| && names[i] == w;
      assert names[i] <= w;
    }
    NoReferenceLeft(command, names);
    FindAllIsReferences(RewriteAll(command, names));
  }

  /** When every reference starts with some rewritten name, none is left. */
  lemma NoReferenceLeft(command: string, names: seq<string>)
    requires forall i :: 0 <= i < |names| ==> IsName(names[i])
    requires forall w :: w in References(command) ==>
      exists i :: 0 <= i < |names| && names[i] <= w
    ensures References(RewriteAll(command, names)) == {}
  {
    RewriteAllReferences(command, names);
  }

  /** `filename.split(".")[-1]`: the text after the last `.`, or the whole
      name when it has none. */
  function FileType(path: string): string
    decreases |path|
  {
    if path == [] then []
    else if path[|path| - 1] == '.' then []
    else FileType(path[..|path| - 1]) + [path[|path| - 1]]
  }

  /** The type is the longest dot-free suffix: the part after the last dot. */
  lemma {:induction false} FileTypeIsLastPart(path: string)
    decreases |path|
    ensures var r := FileType(path);
      EndsWith(path, r) && '.' !in r && (|r| < |path| ==> path[|path| - |r| - 1] == '.')
  {
    if path != [] && path[|path| - 1] != '.' {
      var init := path[..|path| - 1];
      FileTypeIsLastPart(init);
      var r := FileType(path);
      assert r == FileType(init) + [path[|path| - 1]];
      assert path[|path| - |r|..] == init[|init| - |FileType(init)|..] + [path[|path| - 1]];
    }
  }

  /** The types `create_empty_file` writes without failing. */
  predicate Creatable(t: string) {
    t == "jpg" || t == "png" || t == "mp3" || t == "txt" || t == "mp4" || t == "avi"
  }

  /** Whether `create_empty_file` gets through for a path, by its type:
      the image, audio, video and text types are written; `wav` reaches
      `np.zeros`, and `np` is never imported; any other type is refused.
      `Leftover` says which failure still leaves a file behind. */
  function CreateEmptyFile(path: string): Result<(), Raise> {
    var t := FileType(path);
    if Creatable(t) then Ok(())
    else if t == "wav" then Err(Exception("NameError", "name 'np' is not defined"))
    else Err(Exception("ValueError", "Unsupported file type"))
  }

  /** The outcome by type, and the type is the text after the last dot for
      a path under /tmp that has one. */
  lemma CreateEmptyFileOutcome(name: string)
    ensures var r := CreateEmptyFile(TmpPath(name));
      (r.Ok? <==> Creatable(FileType(TmpPath(name)))) &&
      (FileType(TmpPath(name)) == "wav" ==> r == Err(Exception("NameError", "name 'np' is not defined"))) &&
      (r.Err? && FileType(TmpPath(name)) != "wav" ==> r == Err(Exception("ValueError", "Unsupported file type")))
  {
  }

  /** The files a failing `create_empty_file` leaves on disk: `wave.open`
      has created the `wav` file before `np` is reached, and leaving the
      `with` block closes it; a refused type creates nothing. */
  function Leftover(path: string): (r: seq<string>)
    requires CreateEmptyFile(path).Err?
    ensures r == [path] <==> CreateEmptyFile(path).error.kind == "NameError"
    ensures r == [] <==> CreateEmptyFile(path).error.kind == "ValueError"
  {
    if FileType(path) == "wav" then [path] else []
  }

  /** The first name whose empty file cannot be created. */
  function FirstUncreatable(names: seq<string>): (r: Option<nat>)
    ensures r.Some? ==> r.value < |names| && CreateEmptyFile(TmpPath(names[r.value])).Err?
    ensures r.Some? ==> forall j :: 0 <= j < r.value ==> CreateEmptyFile(TmpPath(names[j])).Ok?
    ensures r.None? ==> forall j :: 0 <= j < |names| ==> CreateEmptyFile(TmpPath(names[j])).Ok?
  {
    if names == [] then None
    else if CreateEmptyFile(TmpPath(names[0])).Err? then Some(0)
    else match FirstUncreatable(names[1..])
      case None => None
      case Some(k) => Some(k + 1)
  }

  function TmpPaths(names: seq<string>): (r: seq<string>)
    ensures |r| == |names| && forall i :: 0 <= i < |names| ==> r[i] == TmpPath(names[i])
  {
    if names == [] then [] else TmpPaths(names[..|names| - 1]) + [TmpPath(names[|names| - 1])]
  }

  /** What `create_files_for_cog_predict_command` does to a command: the
      rewritten command or the exception of the first file it cannot
      create, and the files created on the way, the failing one's
      leftover included. */
  function CreateFiles(command: string): (Outcome<string>, seq<string>) {
    var names := FindAll(command);
    match FirstUncreatable(names)
    case None => (Returned(RewriteAll(command, names)), TmpPaths(names))
    case Some(k) =>
      (Raised(CreateEmptyFile(TmpPath(names[k])).error), TmpPaths(names[..k]) + Leftover(TmpPath(names[k])))
  }

  /** On a command it has already rewritten, the step changes nothing and
      creates no file. */
  lemma CreateFilesAgain(command: string)
    ensures var c := RewriteAll(command, FindAll(command));
      CreateFiles(c) == (Returned(c), [])
  {
    RewriteIdempotent(command);
  }

  /** `create_files_for_cog_predict_command`: the rewritten command, and the
      empty files created on the way, in order. The first file that cannot
      be created raises, after leaving its leftover, and the command is
      lost. */
  method CreateFilesForCommand(command: string) returns (r: Outcome<string>, created: seq<string>)
    ensures FirstUncreatable(FindAll(command)).None? ==>
      r == Returned(RewriteAll(command, FindAll(command))) && created == TmpPaths(FindAll(command))
    ensures FirstUncreatable(FindAll(command)).Some? ==>
      var k := FirstUncreatable(FindAll(command)).value;
      r == Raised(CreateEmptyFile(TmpPath(FindAll(command)[k])).error) &&
      created == TmpPaths(FindAll(command)[..k]) + Leftover(TmpPath(FindAll(command)[k]))
  {
    var names := FindAll(command);
    var c := command;
    created := [];
    assert names[..0] == [];
    for i := 0 to |names|
      invariant c == RewriteAll(command, names[..i])
      invariant created == TmpPaths(names[..i])
      invariant FirstUncreatable(names[..i]) == None
    {
      assert names[..i + 1][..i] == names[..i];
      c := Rewrite(c, names[i]);
      var made := CreateEmptyFile(TmpPath(names[i]));
      if made.Err? {
        FirstUncreatableStops(names, i);
        if FileType(TmpPath(names[i])) == "wav" {
          created := created + [TmpPath(names[i])];
        }
        return Raised(made.error), created;
      }
      FirstUncreatableGoesOn(names, i);
      created := created + [TmpPath(names[i])];
    }
    assert names[..|names|] == names;
    r := Returned(c);
  }

  /** A prefix with no failure, then a failure: the failure is the first. */
  lemma FirstUncreatableStops(names: seq<string>, i: nat)
    requires i < |names| && FirstUncreatable(names[..i]) == None
    requires CreateEmptyFile(TmpPath(names[i])).Err?
    ensures FirstUncreatable(names) == Some(i)
  {
    forall j | 0 <= j < i ensures CreateEmptyFile(TmpPath(names[j])).Ok? {
      assert names[..i][j] == names[j];
    }
    FirstUncreatableAt(names, i);
  }

  /** A prefix with no failure, then a success: still no failure. */
  lemma FirstUncreatableGoesOn(names: seq<string>, i: nat)
    requires i < |names| && FirstUncreatable(names[..i]) == None
    requires CreateEmptyFile(TmpPath(names[i])).Ok?
    ensures FirstUncreatable(names[..i + 1]) == None
  {
    var p := names[..i + 1];
    forall j | 0 <= j < |p| ensures CreateEmptyFile(TmpPath(p[j])).Ok? {
      if j < i { assert names[..i][j] == p[j]; }
    }
    FirstUncreatableNone(p);
  }

  lemma {:induction false} FirstUncreatableNone(names: seq<string>)
    requires forall j :: 0 <= j < |names| ==> CreateEmptyFile(TmpPath(names[j])).Ok?
    ensures FirstUncreatable(names) == None
  {
    if names != [] {
      assert CreateEmptyFile(TmpPath(names[0])).Ok?;
      FirstUncreatableNone(names[1..]);
    }
  }

  /** The first failure is the one the loop meets. */
  lemma {:induction false} FirstUncreatableAt(names: seq<string>, i: nat)
    requires i < |names| && CreateEmptyFile(TmpPath(names[i])).Err?
    requires forall j :: 0 <= j < i ==> CreateEmptyFile(TmpPath(names[j])).Ok?
    decreases i
    ensures FirstUncreatable(names) == Some(i)
  {
    if i > 0 {
      assert CreateEmptyFile(TmpPath(names[0])).Ok?;
      FirstUncreatableAt(names[1..], i - 1);
    }
  }
}
