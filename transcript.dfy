/** The chat transcript file of the `AI` class in autocog/ai.py:
    `save_chat_history` writes the system prompt and the history as
    `## ROLE:` sections, and `load_chat_history` reads them back with a
    line-by-line state machine. */
module Transcript {
  import opened Wrappers
  import opened Strings

  /** One turn of the conversation, `{"role": ..., "content": ...}`. */
  datatype Message = Message(role: string, content: string)

  const SystemRole: string := "SYSTEM"

  /** The first line of a section. */
  function Header(role: string): string {
    "## " + role + ":"
  }

  /** `f"## {role}:\n\n{content}\n\n"`. */
  function SectionText(role: string, content: string): string {
    Header(role) + "\n" + "\n" + content + "\n" + "\n"
  }

  /** The history's sections, the role upper-cased, built in order. */
  function Sections(history: seq<Message>): string {
    if history == [] then []
    else
      var last := history[|history| - 1];
      Sections(history[..|history| - 1]) + SectionText(Upper(last.role), last.content)
  }

  /** The text `save_chat_history` writes: the system section first. */
  function Serialize(systemPrompt: string, history: seq<Message>): string {
    SectionText(SystemRole, systemPrompt) + Sections(history)
  }

  /** The variables of `load_chat_history` between two lines: the fields it
      updates, `current_role` ("" standing for None too, as both are false)
      and `current_content`. */
  datatype Reader = Reader(systemPrompt: string, history: seq<Message>, role: string, content: seq<string>)

  /** A stripped line that opens a section. */
  predicate IsHeader(line: string) {
    StartsWith(line, "## ") && EndsWith(line, ":")
  }

  /** `line[3:-1]` of a header. */
  function RoleOf(line: string): string
    requires IsHeader(line)
  {
    assert line[2] == ' ';
    line[3..|line| - 1]
  }

  /** The flush before a header and at the end: a section with a role and
      some content becomes the system prompt or a history entry, and only
      then is the content reset. */
  function Flush(st: Reader): Reader {
    if st.role != [] && st.content != [] then
      var content := Strip(Join(st.content, "\n"));
      if st.role == SystemRole then st.(systemPrompt := content, content := [])
      else st.(history := st.history + [Message(Lower(st.role), content)], content := [])
    else st
  }

  /** One line of the loop, after `line.strip()`. */
  function ReadLine(st: Reader, line: string): Reader {
    if IsHeader(line) then Flush(st).(role := RoleOf(line))
    else if line != [] then st.(content := st.content + [line])
    else st
  }

  /** The loop over the stripped lines. */
  function ReadAll(st: Reader, lines: seq<string>): Reader {
    if lines == [] then st else ReadLine(ReadAll(st, lines[..|lines| - 1]), lines[|lines| - 1])
  }

  /** Every line stripped, in order. */
  function StripAll(lines: seq<string>): (r: seq<string>)
    ensures |r| == |lines|
  {
    if lines == [] then [] else StripAll(lines[..|lines| - 1]) + [Strip(lines[|lines| - 1])]
  }

  /** The loop over the lines of `text`, each stripped. */
  function ReadText(st: Reader, text: string): Reader {
    ReadAll(st, StripAll(ReadLines(text)))
  }

  /** The prompt and history `load_chat_history` leaves, for an object whose
      system prompt was `current` and a file holding `text`. */
  function Load(current: string, text: string): (string, seq<Message>) {
    var st := Flush(ReadText(Reader(current, [], [], []), Universal(text)));
    (st.systemPrompt, st.history)
  }

  /** Text that ends with a newline is read on its own. */
  lemma ReadTextAppend(st: Reader, a: string, b: string)
    requires a == [] || a[|a| - 1] == '\n'
    ensures ReadText(st, a + b) == ReadText(ReadText(st, a), b)
  {
    ReadLinesAppend(a, b);
    StripAllAppend(ReadLines(a), ReadLines(b));
    ReadAllAppend(st, StripAll(ReadLines(a)), StripAll(ReadLines(b)));
  }

  lemma {:induction false} StripAllAppend(a: seq<string>, b: seq<string>)
    decreases |b|
    ensures StripAll(a + b) == StripAll(a) + StripAll(b)
  {
    if b == [] {
      assert a + b == a;
    } else {
      var b' := b[..|b| - 1];
      assert (a + b)[..|a + b| - 1] == a + b';
      assert (a + b)[|a + b| - 1] == b[|b| - 1];
      StripAllAppend(a, b');
    }
  }

  lemma {:induction false} ReadAllAppend(st: Reader, a: seq<string>, b: seq<string>)
    decreases |b|
    ensures ReadAll(st, a + b) == ReadAll(ReadAll(st, a), b)
  {
    if b == [] {
      assert a + b == a;
    } else {
      var b' := b[..|b| - 1];
      assert (a + b)[..|a + b| - 1] == a + b';
      assert (a + b)[|a + b| - 1] == b[|b| - 1];
      ReadAllAppend(st, a, b');
    }
  }

  /** A line that reads back as itself: it is not blank, not a header, and
      `strip()` leaves it alone. */
  predicate PlainLine(line: string) {
    line != [] && Unpadded(line) && '\n' !in line && '\r' !in line && !IsHeader(line)
  }

  /** A content that survives the round trip. */
  predicate PlainContent(c: string) {
    c != [] && Unpadded(c) && '\r' !in c &&
    forall line | line in SplitOn(c, '\n') :: PlainLine(line)
  }

  /** A message whose section reads back as that message. */
  predicate PlainMessage(m: Message) {
    var r := Upper(m.role);
    r != [] && r != SystemRole && '\n' !in r && '\r' !in r && PlainContent(m.content)
  }

  lemma StripLineEnd(line: string)
    requires line != [] && Unpadded(line)
    ensures Strip(line + "\n") == line
  {
    LStripTrailingNewline(line);
    RStripTrailingNewline(line);
  }

  /** The stripped lines of plain lines with their newlines are those lines. */
  lemma {:induction false} StripTerminated(lines: seq<string>)
    requires forall i :: 0 <= i < |lines| ==> PlainLine(lines[i])
    decreases |lines|
    ensures StripAll(Terminated(lines)) == lines
  {
    if lines != [] {
      var init, last := lines[..|lines| - 1], lines[|lines| - 1];
      StripTerminated(init);
      assert lines == init + [last];
      TerminatedSnoc(init, last);
      StripAllSnoc(Terminated(init), last + "\n");
      StripLineEnd(last);
    }
  }

  lemma StripAllSnoc(lines: seq<string>, x: string)
    ensures StripAll(lines + [x]) == StripAll(lines) + [Strip(x)]
  {
    assert (lines + [x])[..|lines|] == lines;
  }

  lemma ReadAllSnoc(st: Reader, lines: seq<string>, x: string)
    ensures ReadAll(st, lines + [x]) == ReadLine(ReadAll(st, lines), x)
  {
    assert (lines + [x])[..|lines|] == lines;
  }

  /** Content lines are collected as they are. */
  lemma {:induction false} ReadContent(st: Reader, lines: seq<string>)
    requires forall i :: 0 <= i < |lines| ==> PlainLine(lines[i])
    decreases |lines|
    ensures ReadAll(st, lines) == st.(content := st.content + lines)
  {
    if lines == [] {
      assert st.content + lines == st.content;
    } else {
      var init, last := lines[..|lines| - 1], lines[|lines| - 1];
      assert lines == init + [last];
      ReadContent(st, init);
      SnocAssoc(st.content, init, last);
    }
  }

  /** Lines read before the first header are not dropped: with no role,
      nothing is flushed and the content is not reset, so they open the
      content of the first section. */
  lemma PreambleCarried(st: Reader, lines: seq<string>, h: string)
    requires st.role == [] && IsHeader(h)
    requires forall i :: 0 <= i < |lines| ==> PlainLine(lines[i])
    ensures ReadAll(st, lines + [h]) == st.(role := RoleOf(h), content := st.content + lines)
  {
    ReadAllSnoc(st, lines, h);
    ReadContent(st, lines);
  }

  /** A header followed at once by another leaves no entry: the state is as
      if the first had not been read. */
  lemma EmptySectionDropped(st: Reader, h1: string, h2: string)
    requires IsHeader(h1) && IsHeader(h2)
    requires st.role != [] || st.content == []
    ensures ReadAll(st, [h1, h2]) == ReadLine(st, h2)
  {
    ReadAllSnoc(st, [h1], h2);
    ReadAllSnoc(st, [], h1);
    assert [] + [h1] == [h1] && [h1] + [h2] == [h1, h2];
    var s1 := ReadLine(st, h1);
    FlushEmpties(st);
    FlushWithoutContent(s1);
    assert ReadLine(s1, h2) == s1.(role := RoleOf(h2));
  }

  /** After a flush no content is pending. */
  lemma FlushEmpties(st: Reader)
    requires st.role != [] || st.content == []
    ensures Flush(st).content == []
  {
  }

  /** With no content pending, a flush changes nothing. */
  lemma FlushWithoutContent(st: Reader)
    requires st.content == []
    ensures Flush(st) == st
  {
  }

  lemma SnocAssoc(a: seq<string>, b: seq<string>, x: string)
    ensures a + b + [x] == a + (b + [x])
  {
  }

  /** A header line is a header for its role, and padding-free. */
  lemma HeaderFacts(role: string)
    requires '\n' !in role
    ensures var h := Header(role);
      h != [] && Unpadded(h) && '\n' !in h && IsHeader(h) && RoleOf(h) == role
  {
    var h := Header(role);
    assert h[..3] == "## ";
    assert h[3..|h| - 1] == role;
  }

  /** One more terminated line after text that ends with a newline. */
  lemma ReadLinesSnocLine(p: string, line: string)
    requires p == [] || p[|p| - 1] == '\n'
    requires '\n' !in line
    ensures ReadLines(p + line + "\n") == ReadLines(p) + [line + "\n"]
  {
    assert p + line + "\n" == p + (line + "\n");
    ReadLinesAppend(p, line + "\n");
    ReadLinesOne(line);
  }

  /** A content and its newline after text that ends with a newline. */
  lemma ReadLinesSnocContent(p: string, content: string)
    requires p == [] || p[|p| - 1] == '\n'
    ensures ReadLines(p + content + "\n") == ReadLines(p) + Terminated(SplitOn(content, '\n'))
  {
    assert p + content + "\n" == p + (content + "\n");
    ReadLinesAppend(p, content + "\n");
    ReadLinesTerminated(content);
  }

  /** The lines of one section. */
  lemma SectionLines(role: string, content: string)
    requires '\n' !in role
    ensures ReadLines(SectionText(role, content)) ==
      [Header(role) + "\n", "\n"] + Terminated(SplitOn(content, '\n')) + ["\n"]
  {
    var h := Header(role);
    HeaderFacts(role);
    var s1 := h + "\n";
    var s2 := s1 + "\n";
    var s4 := s2 + content + "\n";
    assert s1 == [] + h + "\n";
    ReadLinesSnocLine([], h);
    assert s2 == s1 + [] + "\n";
    ReadLinesSnocLine(s1, []);
    ReadLinesSnocContent(s2, content);
    assert SectionText(role, content) == s4 + [] + "\n";
    ReadLinesSnocLine(s4, []);
    var t := Terminated(SplitOn(content, '\n'));
    SeqShape(h + "\n", "\n", t);
  }

  lemma SeqShape(h: string, nl: string, t: seq<string>)
    ensures [] + [h] + [[] + nl] + t + [[] + nl] == [h, nl] + t + [nl]
  {
    assert [] + nl == nl;
    assert [] + [h] + [nl] == [h, nl];
  }

  /** The lines of one section as the loop sees them. */
  lemma StrippedSection(role: string, content: string)
    requires '\n' !in role && PlainContent(content)
    ensures StripAll(ReadLines(SectionText(role, content))) ==
      [Header(role), []] + SplitOn(content, '\n') + [[]]
  {
    var lines := SplitOn(content, '\n');
    SectionLines(role, content);
    var h := Header(role);
    HeaderFacts(role);
    StripLineEnd(h);
    forall i | 0 <= i < |lines| ensures PlainLine(lines[i]) {
      assert lines[i] in lines;
    }
    StripTerminated(lines);
    StripSectionShape(h, lines);
  }

  /** Stripping the section's lines piece by piece. */
  lemma StripSectionShape(h: string, lines: seq<string>)
    requires Strip(h + "\n") == h
    requires StripAll(Terminated(lines)) == lines
    ensures StripAll([h + "\n", "\n"] + Terminated(lines) + ["\n"]) == [h, []] + lines + [[]]
  {
    var head := [h + "\n", "\n"];
    StripAllSnoc(head + Terminated(lines), "\n");
    StripAllAppend(head, Terminated(lines));
    StripHead(h);
    StripNewline();
  }

  lemma StripHead(h: string)
    requires Strip(h + "\n") == h
    ensures StripAll([h + "\n", "\n"]) == [h, []]
  {
    StripAllPair(h + "\n", "\n");
    StripNewline();
  }

  lemma StripAllPair(a: string, b: string)
    ensures StripAll([a, b]) == [Strip(a), Strip(b)]
  {
    assert [a, b][..1] == [a];
    assert [a][..0] == [];
  }

  lemma StripNewline()
    ensures Strip("\n") == []
  {
  }

  /** A section is read as a flush followed by its own role and lines. */
  lemma ReadSection(st: Reader, role: string, content: string)
    requires '\n' !in role && PlainContent(content)
    requires Flush(st).content == []
    ensures ReadText(st, SectionText(role, content)) ==
      Flush(st).(role := role, content := SplitOn(content, '\n'))
  {
    var lines := SplitOn(content, '\n');
    StrippedSection(role, content);
    HeaderFacts(role);
    forall i | 0 <= i < |lines| ensures PlainLine(lines[i]) {
      assert lines[i] in lines;
    }
    ReadSectionShape(st, Header(role), role, lines);
  }

  lemma ReadSectionShape(st: Reader, h: string, role: string, lines: seq<string>)
    requires IsHeader(h) && RoleOf(h) == role
    requires Flush(st).content == []
    requires forall i :: 0 <= i < |lines| ==> PlainLine(lines[i])
    ensures ReadAll(st, [h, []] + lines + [[]]) == Flush(st).(role := role, content := lines)
  {
    var head := [h, []];
    ReadAllSnoc(st, head + lines, []);
    ReadAllAppend(st, head, lines);
    ReadAllSnoc(st, [h], []);
    assert [h] + [[]] == head;
    ReadAllSnoc(st, [], h);
    assert [] + [h] == [h];
    var st1 := Flush(st).(role := role);
    assert ReadAll(st, head) == st1;
    ReadContent(st1, lines);
    assert [] + lines == lines;
  }

  /** The reader after the sections of `history`: every section but the
      last flushed, the last one pending. */
  function Pending(st: Reader, history: seq<Message>): Reader {
    if history == [] then st
    else
      var last := history[|history| - 1];
      Flush(Pending(st, history[..|history| - 1])).(role := Upper(last.role), content := SplitOn(last.content, '\n'))
  }

  lemma {:induction false} ReadSections(st: Reader, history: seq<Message>)
    requires Flush(st).content == []
    requires forall i :: 0 <= i < |history| ==> PlainMessage(history[i])
    decreases |history|
    ensures ReadText(st, Sections(history)) == Pending(st, history)
    ensures history != [] ==> Pending(st, history).role != [] && Pending(st, history).content != []
  {
    if history != [] {
      var init, last := history[..|history| - 1], history[|history| - 1];
      assert PlainMessage(last);
      ReadSections(st, init);
      var text := Sections(init);
      assert text == [] || text[|text| - 1] == '\n';
      ReadTextAppend(st, text, SectionText(Upper(last.role), last.content));
      ReadSection(Pending(st, init), Upper(last.role), last.content);
    }
  }

  /** The roles as `load_chat_history` gives them back: upper-cased by the
      save, lower-cased by the load. */
  function Lowered(history: seq<Message>): (r: seq<Message>)
    ensures |r| == |history|
  {
    if history == [] then []
    else
      var last := history[|history| - 1];
      Lowered(history[..|history| - 1]) + [Message(Lower(Upper(last.role)), last.content)]
  }

  /** A joined content is stripped back to itself. */
  lemma ContentBack(c: string)
    requires PlainContent(c)
    ensures Strip(Join(SplitOn(c, '\n'), "\n")) == c
  {
    JoinSplitOn(c, '\n');
    StripUnpadded(c);
  }

  /** Flushing after the sections sets the system prompt from the first
      section and appends one entry per later section. */
  lemma {:induction false} FlushPending(st: Reader, systemPrompt: string, history: seq<Message>)
    requires st.role == SystemRole && st.content == SplitOn(systemPrompt, '\n') && PlainContent(systemPrompt)
    requires forall i :: 0 <= i < |history| ==> PlainMessage(history[i])
    decreases |history|
    ensures Flush(Pending(st, history)).systemPrompt == systemPrompt
    ensures Flush(Pending(st, history)).history == st.history + Lowered(history)
  {
    if history == [] {
      ContentBack(systemPrompt);
    } else {
      var init := history[..|history| - 1];
      assert PlainMessage(history[|history| - 1]);
      FlushPending(st, systemPrompt, init);
      FlushPendingStep(st, systemPrompt, history);
    }
  }

  /** One more section flushes into one more entry. */
  lemma FlushPendingStep(st: Reader, systemPrompt: string, history: seq<Message>)
    requires history != [] && PlainMessage(history[|history| - 1])
    requires Flush(Pending(st, history[..|history| - 1])).systemPrompt == systemPrompt
    requires Flush(Pending(st, history[..|history| - 1])).history == st.history + Lowered(history[..|history| - 1])
    ensures Flush(Pending(st, history)).systemPrompt == systemPrompt
    ensures Flush(Pending(st, history)).history == st.history + Lowered(history)
  {
    var init, last := history[..|history| - 1], history[|history| - 1];
    ContentBack(last.content);
    var p := Flush(Pending(st, init));
    assert Pending(st, history) == p.(role := Upper(last.role), content := SplitOn(last.content, '\n'));
    FlushOne(p, Upper(last.role), last.content);
    assert Lowered(history) == Lowered(init) + [Message(Lower(Upper(last.role)), last.content)];
  }

  /** A pending section of a role other than SYSTEM becomes one entry. */
  lemma FlushOne(q: Reader, role: string, content: string)
    requires role != [] && role != SystemRole
    requires Strip(Join(SplitOn(content, '\n'), "\n")) == content
    ensures Flush(q.(role := role, content := SplitOn(content, '\n'))) ==
      q.(role := role, history := q.history + [Message(Lower(role), content)], content := [])
  {
  }

  /** Save then load: the system prompt comes back, and so does the
      history, with each role lower-cased, when no text could be mistaken
      for a header, a blank line or padding. */
  lemma RoundTrip(current: string, systemPrompt: string, history: seq<Message>)
    requires PlainContent(systemPrompt)
    requires forall i :: 0 <= i < |history| ==> PlainMessage(history[i])
    ensures Load(current, Serialize(systemPrompt, history)) == (systemPrompt, Lowered(history))
  {
    NoReturns(systemPrompt, history);
    UniversalNoCR(Serialize(systemPrompt, history));
    var init := Reader(current, [], [], []);
    ReadSaved(init, systemPrompt, history);
    FlushPending(init.(role := SystemRole, content := SplitOn(systemPrompt, '\n')), systemPrompt, history);
    assert [] + Lowered(history) == Lowered(history);
  }

  /** The saved text is read as its system section, left pending until the
      first message's header, then as the sections of the history. */
  lemma ReadSaved(init: Reader, systemPrompt: string, history: seq<Message>)
    requires init.role == [] && init.content == []
    requires PlainContent(systemPrompt)
    requires forall i :: 0 <= i < |history| ==> PlainMessage(history[i])
    ensures ReadText(init, Serialize(systemPrompt, history)) ==
      Pending(init.(role := SystemRole, content := SplitOn(systemPrompt, '\n')), history)
  {
    SectionEnds(SystemRole, systemPrompt);
    ReadTextAppend(init, SectionText(SystemRole, systemPrompt), Sections(history));
    ReadSystem(init, systemPrompt);
    var st := init.(role := SystemRole, content := SplitOn(systemPrompt, '\n'));
    FlushOfSystem(st, systemPrompt);
    ReadSections(st, history);
  }

  /** The system section of a fresh reader is left pending. */
  lemma ReadSystem(init: Reader, systemPrompt: string)
    requires init.role == [] && init.content == []
    requires PlainContent(systemPrompt)
    ensures ReadText(init, SectionText(SystemRole, systemPrompt)) ==
      init.(role := SystemRole, content := SplitOn(systemPrompt, '\n'))
  {
    FlushWithoutRole(init);
    ReadSection(init, SystemRole, systemPrompt);
  }

  lemma SectionEnds(role: string, content: string)
    ensures var t := SectionText(role, content); t[|t| - 1] == '\n'
  {
  }

  /** Content with no role is not flushed. */
  lemma FlushWithoutRole(st: Reader)
    requires st.role == []
    ensures Flush(st) == st
  {
  }

  /** The pending system section is flushed away by the next header. */
  lemma FlushOfSystem(st: Reader, systemPrompt: string)
    requires st.role == SystemRole && st.content == SplitOn(systemPrompt, '\n')
    ensures Flush(st).content == []
  {
  }

  lemma {:induction false} NoReturns(systemPrompt: string, history: seq<Message>)
    requires '\r' !in systemPrompt
    requires forall i :: 0 <= i < |history| ==> PlainMessage(history[i])
    decreases |history|
    ensures '\r' !in Serialize(systemPrompt, history)
  {
    if history != [] {
      NoReturns(systemPrompt, history[..|history| - 1]);
      assert PlainMessage(history[|history| - 1]);
    }
  }
}
