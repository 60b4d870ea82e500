/** Runs on a stored session: the tool loop, what a stopped run keeps, and
    compaction. */
module Sessions {
  import opened Base
  import opened Conversation

  // ---------- histories with every call answered ----------

  /** A message that starts an exchange: no result, and only an assistant calls. */
  predicate Heads(m: Message) {
    m.role != Tool && m.toolCallId.None? && (m.toolCalls != [] ==> m.role == Assistant)
  }

  predicate Answers(m: Message, call: ToolCall) {
    m.role == Tool && m.toolCalls == [] && m.toolCallId == Some(call.id)
  }

  /** The messages after the first answer its calls, in order. */
  predicate Group(ms: seq<Message>) {
    && ms != []
    && Heads(ms[0])
    && |ms[0].toolCalls| < |ms|
    && forall k | 0 <= k < |ms[0].toolCalls| :: Answers(ms[k + 1], ms[0].toolCalls[k])
  }

  /** Every call is answered, in order, before the next message that is not a
      result. */
  predicate Paired(ms: seq<Message>)
    decreases |ms|
  {
    ms == [] || (Group(ms) && Paired(ms[1 + |ms[0].toolCalls|..]))
  }

  // ---------- compaction ----------

  /** Everything before `n` may go: a real user message comes first. */
  predicate Safe(ms: seq<Message>, n: nat) {
    0 < n < |ms| && ms[n].role == User && ms[n].toolCallId.None?
  }

  datatype Cut = NoCut | At(drop: nat) | OutOfBounds

  /** How many of the oldest turns a summary replaces. */
  function CompactionCut(ms: seq<Message>, keep: nat): (cut: Cut)
    ensures cut.OutOfBounds? <==> keep == 0 && ms != []
    ensures cut.At? ==> Safe(ms, cut.drop) && cut.drop + keep <= |ms|
    ensures cut.At? ==> forall n | cut.drop < n && n + keep <= |ms| :: !Safe(ms, n)
    ensures cut.NoCut? ==> forall n: nat | n + keep <= |ms| :: !Safe(ms, n)
  {
    if |ms| < keep || |ms| - keep == 0 then NoCut
    else if |ms| - keep == |ms| then OutOfBounds
    else LastSafe(ms, |ms| - keep)
  }

  function LastSafe(ms: seq<Message>, target: nat): (cut: Cut)
    requires target < |ms|
    ensures !cut.OutOfBounds?
    ensures cut.At? ==> Safe(ms, cut.drop) && cut.drop <= target
    ensures cut.At? ==> forall n | cut.drop < n <= target :: !Safe(ms, n)
    ensures cut.NoCut? ==> forall n: nat | n <= target :: !Safe(ms, n)
  {
    if target == 0 then NoCut else if Safe(ms, target) then At(target) else LastSafe(ms, target - 1)
  }

  function Summary(text: string): Message {
    UserSays("[Conversation summary]\n" + text)
  }

  function Compacted(ms: seq<Message>, drop: nat, text: string): seq<Message>
    requires drop <= |ms|
  {
    [Summary(text)] + ms[drop..]
  }

  // ---------- one model run ----------

  /** What an await of the provider gave: a reply, with what each call of it that
      was awaited returned before the run was stopped, or a failure. */
  datatype Reply = Reply(text: string, calls: seq<ToolCall>, results: seq<string>) | Failure

  /** `ownsTools` when the provider calls tools itself and hands back only its last
      reply. `limit` bounds the turns of a run outside a session. */
  datatype Setting = Setting(offered: set<string>, ownsTools: bool, limit: Option<nat>)

  datatype End = Finished(text: string) | HitLimit | Failed | Stopped

  const NOTE := "(This reply was stopped before it finished.)"

  function LimitNote(limit: nat): string {
    "I stopped after using all " + Decimal(limit) + " turns without finishing."
  }

  function NotOffered(name: string): string {
    "tool call failed (`" + name + "` is not one of the tools this runner was given)"
  }

  /** How many of the first `n` calls are awaited: those of offered tools. */
  function Awaited(calls: seq<ToolCall>, n: nat, offered: set<string>): nat
    requires n <= |calls|
  {
    if n == 0 then 0 else Awaited(calls, n - 1, offered) + if calls[n - 1].name in offered then 1 else 0
  }

  lemma {:induction false} AwaitedGrows(calls: seq<ToolCall>, m: nat, n: nat, offered: set<string>)
    requires m <= n <= |calls|
    ensures Awaited(calls, m, offered) <= Awaited(calls, n, offered)
    decreases n
  {
    if m < n {
      AwaitedGrows(calls, m, n - 1, offered);
    }
  }

  /** The result message of a call; result `n` is its own if it was awaited. */
  function ResultOf(call: ToolCall, offered: set<string>, results: seq<string>, n: nat): (m: Message)
    requires call.name in offered ==> n < |results|
    ensures Answers(m, call)
  {
    ToolResult(call.id, if call.name in offered then results[n] else NotOffered(call.name))
  }

  /** The result messages of the first `n` calls. */
  function Results(calls: seq<ToolCall>, n: nat, offered: set<string>, results: seq<string>): (ms: seq<Message>)
    requires n <= |calls| && Awaited(calls, n, offered) <= |results|
    ensures |ms| == n && forall k | 0 <= k < n :: Answers(ms[k], calls[k])
  {
    if n == 0 then []
    else
      Results(calls, n - 1, offered, results)
      + [ResultOf(calls[n - 1], offered, results, Awaited(calls, n - 1, offered))]
  }

  /** The messages of a reply that calls tools, once all have returned. */
  function StepOf(r: Reply, offered: set<string>): seq<Message>
    requires Completes(r, offered)
  {
    [Message(Assistant, r.text, r.calls, None)] + Results(r.calls, |r.calls|, offered, r.results)
  }

  /** The reply calls tools, and every call returned. */
  predicate Completes(r: Reply, offered: set<string>) {
    r.Reply? && r.calls != [] && Awaited(r.calls, |r.calls|, offered) <= |r.results|
  }

  /** How the run ends at reply `n`, unless it goes on. */
  function EndsAt(s: Setting, script: seq<Reply>, n: nat): Option<End>
    requires n <= |script|
  {
    if s.limit.Some? && n >= s.limit.value then Some(HitLimit)
    else if n == |script| then Some(Stopped)
    else if script[n].Failure? then Some(Failed)
    else if script[n].calls == [] then Some(Finished(script[n].text))
    else if !Completes(script[n], s.offered) then Some(Stopped)
    else None
  }

  /** How many replies complete before the run ends, and how it ends. The run is
      stopped where `script` is used up. */
  function EndFrom(s: Setting, script: seq<Reply>, n: nat): (r: (nat, End))
    requires n <= |script|
    ensures n <= r.0 <= |script|
    ensures forall k | n <= k < r.0 :: Completes(script[k], s.offered)
    decreases |script| - n
  {
    if EndsAt(s, script, n).Some? then (n, EndsAt(s, script, n).value) else EndFrom(s, script, n + 1)
  }

  function EndOf(s: Setting, script: seq<Reply>): (r: (nat, End))
    ensures r.0 <= |script|
    ensures forall k | 0 <= k < r.0 :: Completes(script[k], s.offered)
  {
    if !s.ownsTools then EndFrom(s, script, 0)
    else if script == [] then (0, Stopped)
    else if script[0].Failure? then (0, Failed)
    else (0, Finished(script[0].text))
  }

  /** The messages of the first `n` replies. */
  function Steps(script: seq<Reply>, offered: set<string>, n: nat): seq<Message>
    requires n <= |script| && forall k | 0 <= k < n :: Completes(script[k], offered)
  {
    if n == 0 then [] else Steps(script, offered, n - 1) + StepOf(script[n - 1], offered)
  }

  function Prompt(prompt: string): seq<Message> {
    if prompt == "" then [] else [UserSays(prompt)]
  }

  /** What a run leaves as its progress: its prompt, then the steps it completed. */
  function ProgressOf(prompt: string, s: Setting, script: seq<Reply>): seq<Message> {
    Prompt(prompt) + Steps(script, s.offered, EndOf(s, script).0)
  }

  /** The message that closes a run's new turns, if it hands any back. */
  function Closing(s: Setting, end: End): seq<Message> {
    match end
    case Finished(text) => [AssistantSays(text)]
    case HitLimit => [AssistantSays(LimitNote(s.limit.GetOr(0)))]
    case _ => []
  }

  /** A model run. `turns` are the run's new messages when it hands them back,
      and `progress` what it has kept so far. */
  method RunModel(history: seq<Message>, prompt: string, s: Setting, script: seq<Reply>)
    returns (end: End, turns: seq<Message>, progress: seq<Message>)
    requires history + Prompt(prompt) != []
    ensures end == EndOf(s, script).1
    ensures progress == ProgressOf(prompt, s, script)
    ensures turns == if end.Finished? || end.HitLimit? then progress + Closing(s, end) else []
  {
    hide Prompt, Completes, LimitNote;
    var messages := history + Prompt(prompt);
    progress, turns := NewTurns(messages, history, Prompt(prompt)), [];
    if !s.ownsTools {
      end, turns, progress := ToolLoop(history, messages, prompt, s, script);
    } else if script == [] {
      end := Stopped;
    } else if script[0].Failure? {
      end := Failed;
    } else {
      end, turns := Finished(script[0].text), progress + [AssistantSays(script[0].text)];
    }
    assert s.ownsTools ==> Steps(script, s.offered, 0) == [] && progress + [] == progress;
  }

  /** The run has come through `n` replies. */
  predicate Through(
    history: seq<Message>, prompt: string, s: Setting, script: seq<Reply>,
    n: nat, messages: seq<Message>, progress: seq<Message>)
  {
    && n <= |script|
    && (forall k | 0 <= k < n :: Completes(script[k], s.offered))
    && EndFrom(s, script, 0) == EndFrom(s, script, n)
    && progress == Prompt(prompt) + Steps(script, s.offered, n)
    && messages == history + progress
  }

  method ToolLoop(history: seq<Message>, start: seq<Message>, prompt: string, s: Setting, script: seq<Reply>)
    returns (end: End, turns: seq<Message>, progress: seq<Message>)
    requires start == history + Prompt(prompt) && !s.ownsTools
    ensures end == EndOf(s, script).1
    ensures progress == ProgressOf(prompt, s, script)
    ensures turns == if end.Finished? || end.HitLimit? then progress + Closing(s, end) else []
  {
    hide Completes, StepOf, Prompt, Steps, EndFrom, LimitNote, Through;
    var messages := start;
    progress, turns := NewTurns(messages, history, Prompt(prompt)), [];
    ThroughNone(history, prompt, s, script);
    var n: nat := 0;
    while true
      invariant n <= |script| && turns == []
      invariant Through(history, prompt, s, script, n, messages, progress)
      decreases |script| - n
    {
      EndsHere(history, prompt, s, script, n, messages, progress);
      if s.limit.Some? && n >= s.limit.value {
        end, turns := HitLimit, NewTurns(messages, history, progress) + [AssistantSays(LimitNote(s.limit.value))];
        return;
      }
      if n == |script| {
        return Stopped, turns, progress;
      }
      var reply := script[n];
      if reply.Failure? {
        return Failed, turns, progress;
      }
      if reply.calls == [] {
        end, turns := Finished(reply.text), NewTurns(messages, history, progress) + [AssistantSays(reply.text)];
        return;
      }
      var done, more := CallTools(messages, reply, s.offered);
      if !done {
        return Stopped, turns, progress;
      }
      ThroughMore(history, prompt, s, script, n, messages, progress);
      messages, n := more, n + 1;
      progress := NewTurns(messages, history, progress + StepOf(reply, s.offered));
    }
  }

  lemma ThroughNone(history: seq<Message>, prompt: string, s: Setting, script: seq<Reply>)
    requires !s.ownsTools
    ensures Through(history, prompt, s, script, 0, history + Prompt(prompt), Prompt(prompt))
  {
    hide Prompt;
    assert Prompt(prompt) + [] == Prompt(prompt);
  }

  lemma ThroughMore(
    history: seq<Message>, prompt: string, s: Setting, script: seq<Reply>,
    n: nat, messages: seq<Message>, progress: seq<Message>)
    requires !s.ownsTools && Through(history, prompt, s, script, n, messages, progress)
    requires n < |script| && Completes(script[n], s.offered) && !(s.limit.Some? && n >= s.limit.value)
    ensures var step := StepOf(script[n], s.offered);
            && messages + step == history + (progress + step)
            && Through(history, prompt, s, script, n + 1, messages + step, progress + step)
  {
    hide StepOf, Prompt;
    var step := StepOf(script[n], s.offered);
    assert Steps(script, s.offered, n + 1) == Steps(script, s.offered, n) + step;
    Regroup(Prompt(prompt), Steps(script, s.offered, n), step);
    assert (history + progress) + step == history + (progress + step);
  }

  lemma EndsHere(
    history: seq<Message>, prompt: string, s: Setting, script: seq<Reply>,
    n: nat, messages: seq<Message>, progress: seq<Message>)
    requires !s.ownsTools && Through(history, prompt, s, script, n, messages, progress)
    ensures messages == history + progress
    ensures EndsAt(s, script, n).Some? ==>
      EndOf(s, script).1 == EndsAt(s, script, n).value && progress == ProgressOf(prompt, s, script)
  {
    hide StepOf, Prompt, Completes;
  }

  /** The messages from the end of the history on. */
  function NewTurns(messages: seq<Message>, history: seq<Message>, ghost added: seq<Message>): (r: seq<Message>)
    requires messages == history + added
    ensures r == added
  {
    messages[|history|..]
  }

  /** One step's calls. `done` unless the run is stopped while one of them runs. */
  method CallTools(messages: seq<Message>, reply: Reply, offered: set<string>)
    returns (done: bool, more: seq<Message>)
    requires reply.Reply? && reply.calls != []
    ensures done == Completes(reply, offered)
    ensures done ==> more == messages + StepOf(reply, offered)
  {
    hide NotOffered, Answers;
    more := messages + [Message(Assistant, reply.text, reply.calls, None)];
    ghost var start := more;
    var a: nat, awaited: nat := 0, 0;
    while a < |reply.calls|
      invariant a <= |reply.calls|
      invariant awaited == Awaited(reply.calls, a, offered) <= |reply.results|
      invariant more == start + Results(reply.calls, a, offered, reply.results)
    {
      var call := reply.calls[a];
      AwaitedGrows(reply.calls, a + 1, |reply.calls|, offered);
      var text := NotOffered(call.name);
      if call.name in offered {
        if awaited == |reply.results| {
          return false, more;
        }
        text, awaited := reply.results[awaited], awaited + 1;
      }
      Regroup(start, Results(reply.calls, a, offered, reply.results), [ToolResult(call.id, text)]);
      more := more + [ToolResult(call.id, text)];
      a := a + 1;
    }
    Regroup(messages, [Message(Assistant, reply.text, reply.calls, None)],
            Results(reply.calls, a, offered, reply.results));
    return true, more;
  }
}
