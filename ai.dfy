/** The chat state of the `AI` class in autocog/ai.py: the system prompt,
    the history that `call` extends after each answer, and the transcript
    file that `save_chat_history`, `clear_history` and `load_chat_history`
    write, delete and read. The provider behind `call` is an oracle:
    `provider(n, sent)` is what the `n`-th request made with the messages
    `sent` gives back. */
module Ai {
  import opened Wrappers
  import opened Strings
  import opened Transcript

  /** The `messages` argument of `call`: a string or a list of messages. */
  datatype Messages = Text(text: string) | List(list: seq<Message>)

  /** What one request to the provider did: the streamed text, or an error,
      `api` telling whether it was a `RateLimitError` or an
      `APIStatusError`, the two kinds `call` catches. */
  datatype ProviderResult = Reply(text: string) | Error(error: Raise, api: bool)

  /** A string argument becomes one user message. */
  function Wrap(messages: Messages): (r: seq<Message>)
    ensures messages.Text? ==> |r| == 1 && r[0].role == "user" && r[0].content == messages.text
    ensures messages.List? ==> r == messages.list
  {
    match messages
    case Text(text) => [Message("user", text)]
    case List(list) => list
  }

  /** The errors `call` retries: caught, and "rate limit" in their text once
      lower-cased. */
  predicate RateLimited(e: ProviderResult) {
    e.Error? && e.api && Contains(Lower(e.error.message), "rate limit")
  }

  const RecursionLimit: Raise := Exception("RecursionError", "maximum recursion depth exceeded")

  /** The requests of `call` from request `next` on, for the messages
      `sent`: a rate-limited error is retried by the recursive call, with
      the same messages as the history is unchanged, and any other
      outcome is final. Python's stack gives out after `frames` more
      calls. */
  function Ask(provider: (nat, seq<Message>) -> ProviderResult, sent: seq<Message>, next: nat, frames: nat): (r: Asked<string>)
    decreases frames
    ensures next < r.after <= next + frames + 1
    ensures forall n :: next <= n < r.after - 1 ==> RateLimited(provider(n, sent))
    ensures r.outcome.Returned? <==> provider(r.after - 1, sent).Reply?
    ensures r.outcome.Returned? ==> r.outcome.value == provider(r.after - 1, sent).text
    ensures r.outcome.Raised? && !RateLimited(provider(r.after - 1, sent)) ==>
      r.outcome.error == provider(r.after - 1, sent).error
    ensures r.outcome.Raised? && RateLimited(provider(r.after - 1, sent)) ==>
      r.outcome.error == RecursionLimit && r.after == next + frames + 1
  {
    var answer := provider(next, sent);
    if answer.Reply? then Asked(Returned(answer.text), next + 1)
    else if RateLimited(answer) then
      if frames == 0 then Asked(Raised(RecursionLimit), next + 1)
      else Ask(provider, sent, next + 1, frames - 1)
    else Asked(Raised(answer.error), next + 1)
  }

  /** An error that is not rate-limited is raised at once, whatever it is. */
  lemma NoRetryOtherwise(provider: (nat, seq<Message>) -> ProviderResult, sent: seq<Message>, next: nat, frames: nat)
    requires provider(next, sent).Error? && !RateLimited(provider(next, sent))
    ensures Ask(provider, sent, next, frames) == Asked(Raised(provider(next, sent).error), next + 1)
  {
  }

  /** A reply ends the call at once. */
  lemma FirstReply(provider: (nat, seq<Message>) -> ProviderResult, sent: seq<Message>, next: nat, frames: nat)
    requires provider(next, sent).Reply?
    ensures Ask(provider, sent, next, frames) == Asked(Returned(provider(next, sent).text), next + 1)
  {
  }

  /** A rate-limited error with frames left is one more request, with the
      same messages. */
  lemma RetryStep(provider: (nat, seq<Message>) -> ProviderResult, sent: seq<Message>, next: nat, frames: nat)
    requires RateLimited(provider(next, sent)) && frames > 0
    ensures Ask(provider, sent, next, frames) == Ask(provider, sent, next + 1, frames - 1)
  {
  }

  /** A rate-limited error with no frame left overflows the stack. */
  lemma RetryExhausted(provider: (nat, seq<Message>) -> ProviderResult, sent: seq<Message>, next: nat)
    requires RateLimited(provider(next, sent))
    ensures Ask(provider, sent, next, 0) == Asked(Raised(RecursionLimit), next + 1)
  {
  }

  /** Retrying until a reply: the call returns the first reply after any
      run of rate-limited errors that the stack can hold. */
  lemma {:induction false} RetriedUntilReply(provider: (nat, seq<Message>) -> ProviderResult, sent: seq<Message>, next: nat, k: nat, frames: nat)
    requires k <= frames
    requires forall n :: next <= n < next + k ==> RateLimited(provider(n, sent))
    requires provider(next + k, sent).Reply?
    decreases k
    ensures Ask(provider, sent, next, frames) == Asked(Returned(provider(next + k, sent).text), next + k + 1)
  {
    if k > 0 {
      assert RateLimited(provider(next, sent));
      RetriedUntilReply(provider, sent, next + 1, k - 1, frames - 1);
    }
  }

  class AI {
    var systemPrompt: string
    var history: seq<Message>
    /** The file at `chat_history_path`: its text, or None when absent. */
    var transcript: Option<string>

    constructor (systemPrompt: string, transcript: Option<string>)
      ensures this.systemPrompt == systemPrompt && history == [] && this.transcript == transcript
    {
      this.systemPrompt := systemPrompt;
      this.history := [];
      this.transcript := transcript;
    }

    /** `call(messages)`: the provider sees the history followed by the
        messages; an answer extends the history with them and one
        assistant turn and rewrites the transcript, and a failure changes
        nothing. */
    method Call(messages: Messages, provider: (nat, seq<Message>) -> ProviderResult, next: nat, frames: nat)
      returns (r: Asked<string>)
      modifies this
      decreases frames
      ensures r == Ask(provider, old(history) + Wrap(messages), next, frames)
      ensures systemPrompt == old(systemPrompt)
      ensures r.outcome.Returned? ==>
        history == old(history) + Wrap(messages) + [Message("assistant", r.outcome.value)] &&
        transcript == Some(Serialize(systemPrompt, history))
      ensures r.outcome.Raised? ==> history == old(history) && transcript == old(transcript)
    {
      var list := Wrap(messages);
      var full := history + list;
      var answer := provider(next, full);
      if answer.Reply? {
        FirstReply(provider, full, next, frames);
        history := history + list;
        history := history + [Message("assistant", answer.text)];
        SaveChatHistory();
        return Asked(Returned(answer.text), next + 1);
      }
      if RateLimited(answer) {
        if frames == 0 {
          RetryExhausted(provider, full, next);
          return Asked(Raised(RecursionLimit), next + 1);
        }
        RetryStep(provider, full, next, frames);
        r := Call(List(list), provider, next + 1, frames - 1);
        return;
      }
      NoRetryOtherwise(provider, full, next, frames);
      return Asked(Raised(answer.error), next + 1);
    }

    /** `save_chat_history`: the system section, then one section per
        entry of the history, in order. */
    method SaveChatHistory()
      modifies this
      ensures transcript == Some(Serialize(systemPrompt, history))
      ensures systemPrompt == old(systemPrompt) && history == old(history)
    {
      var entries := history;
      var written := SectionText(SystemRole, systemPrompt);
      assert entries[..0] == [];
      for i := 0 to |entries|
        invariant systemPrompt == old(systemPrompt) && history == entries
        invariant written == Serialize(systemPrompt, entries[..i])
      {
        var m := entries[i];
        SaveStep(systemPrompt, entries, i);
        written := written + SectionText(Upper(m.role), m.content);
      }
      assert entries[..|entries|] == entries;
      transcript := Some(written);
    }

    /** `clear_history`: the history is emptied and the file deleted, if
        there is one. */
    method ClearHistory()
      modifies this
      ensures history == [] && transcript == None && systemPrompt == old(systemPrompt)
    {
      history := [];
      if transcript.Some? {
        transcript := None;
      }
    }

    /** `load_chat_history`: the history is emptied first; a missing file
        then raises, and otherwise the prompt and history are those the
        text holds. */
    method LoadChatHistory() returns (r: Outcome<()>)
      modifies this
      ensures transcript == old(transcript)
      ensures old(transcript).None? ==>
        r == Raised(Exception("FileNotFoundError", "No such file or directory")) &&
        history == [] && systemPrompt == old(systemPrompt)
      ensures old(transcript).Some? ==>
        r == Returned(()) && (systemPrompt, history) == Load(old(systemPrompt), old(transcript).value)
    {
      history := [];
      var role: string := [];
      var content: seq<string> := [];
      if transcript.None? {
        return Raised(Exception("FileNotFoundError", "No such file or directory"));
      }
      var text := transcript.value;
      var lines := ReadLines(Universal(text));
      ghost var init := Reader(systemPrompt, [], [], []);
      for i := 0 to |lines|
        invariant transcript == old(transcript)
        invariant Reader(systemPrompt, history, role, content) == ReadAll(init, StripAll(lines[..i]))
      {
        var line := Strip(lines[i]);
        LoadStep(init, lines, i);
        if IsHeader(line) {
          content := FlushSection(role, content);
          role := RoleOf(line);
        } else if line != [] {
          content := content + [line];
        }
      }
      assert lines[..|lines|] == lines;
      content := FlushSection(role, content);
      return Returned(());
    }

    /** The flush before a header and after the last line: a section with
        a role and some content sets the system prompt or appends an
        entry, and gives back the emptied content. */
    method FlushSection(role: string, content: seq<string>) returns (rest: seq<string>)
      modifies this
      ensures Reader(systemPrompt, history, role, rest) == Flush(Reader(old(systemPrompt), old(history), role, content))
      ensures transcript == old(transcript)
    {
      rest := content;
      if role != [] && content != [] {
        var joined := Strip(Join(content, "\n"));
        if role == SystemRole {
          systemPrompt := joined;
        } else {
          history := history + [Message(Lower(role), joined)];
        }
        rest := [];
      }
    }
  }

  /** One more entry of the loop in `save_chat_history`. */
  lemma SaveStep(systemPrompt: string, history: seq<Message>, i: nat)
    requires i < |history|
    ensures Serialize(systemPrompt, history[..i + 1]) ==
      Serialize(systemPrompt, history[..i]) + SectionText(Upper(history[i].role), history[i].content)
  {
    assert history[..i + 1][..i] == history[..i];
  }

  /** One more line of the loop in `load_chat_history`. */
  lemma LoadStep(init: Reader, lines: seq<string>, i: nat)
    requires i < |lines|
    ensures ReadAll(init, StripAll(lines[..i + 1])) == ReadLine(ReadAll(init, StripAll(lines[..i])), Strip(lines[i]))
  {
    assert lines[..i + 1] == lines[..i] + [lines[i]];
    StripAllSnoc(lines[..i], lines[i]);
    ReadAllSnoc(init, StripAll(lines[..i]), Strip(lines[i]));
  }
}
