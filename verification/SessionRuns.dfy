/** A stored session over its lifetime: whole runs, and runs that overlap. */
module SessionRuns {
  import opened Base
  import opened Conversation
  import opened Sessions

  // ---------- histories with every call answered ----------

  lemma GroupSize(ms: seq<Message>)
    requires Group(ms)
    ensures forall k | 0 < k <= |ms[0].toolCalls| :: ms[k].role == Tool
  {
    forall k | 0 < k <= |ms[0].toolCalls| ensures ms[k].role == Tool {
      assert Answers(ms[k - 1 + 1], ms[0].toolCalls[k - 1]);
    }
  }

  lemma {:induction false} PairedAppend(a: seq<Message>, b: seq<Message>)
    requires Paired(a) && Paired(b)
    ensures Paired(a + b)
    decreases |a|
  {
    if a == [] {
      assert a + b == b;
    } else {
      var n := 1 + |a[0].toolCalls|;
      GroupAppend(a, b);
      assert n <= |a|;
      hide Group;
      DropOfSum(a, b, n);
      PairedAppend(a[n..], b);
    }
  }

  lemma GroupAppend(a: seq<Message>, b: seq<Message>)
    requires Group(a)
    ensures Group(a + b) && (a + b)[0] == a[0]
  {
  }

  lemma DropOfSum(a: seq<Message>, b: seq<Message>, n: nat)
    requires n <= |a|
    ensures (a + b)[n..] == a[n..] + b
  {
  }

  /** A history splits anywhere but before a tool result. */
  lemma {:induction false} PairedSplits(ms: seq<Message>, cut: nat)
    requires Paired(ms) && cut < |ms| && ms[cut].role != Tool
    ensures Paired(ms[..cut]) && Paired(ms[cut..])
    decreases |ms|
  {
    if cut > 0 {
      var n := 1 + |ms[0].toolCalls|;
      GroupSize(ms);
      PairedSplits(ms[n..], cut - n);
      assert ms[..cut][n..] == ms[n..][..cut - n];
      assert ms[cut..] == ms[n..][cut - n..];
      assert Group(ms[..cut]);
    } else {
      assert ms[..cut] == [] && ms[cut..] == ms;
    }
  }

  lemma StepIsPaired(r: Reply, offered: set<string>)
    requires Completes(r, offered)
    ensures Paired(StepOf(r, offered))
  {
    var ms := StepOf(r, offered);
    assert ms[1..] == Results(r.calls, |r.calls|, offered, r.results);
    assert ms[1 + |r.calls|..] == [];
    assert Group(ms);
  }

  lemma OneMessagePaired(m: Message)
    requires Heads(m) && m.toolCalls == []
    ensures Paired([m])
  {
    assert [m][1..] == [];
  }

  lemma CompactedPaired(ms: seq<Message>, drop: nat, text: string)
    requires Paired(ms) && Safe(ms, drop)
    ensures Paired(Compacted(ms, drop, text))
  {
    hide Group, Paired, Summary;
    PairedSplits(ms, drop);
    assert Heads(Summary(text)) && Summary(text).toolCalls == [] by { SummaryHeads(text); }
    OneMessagePaired(Summary(text));
    PairedAppend([Summary(text)], ms[drop..]);
  }

  lemma SummaryHeads(text: string)
    ensures Heads(Summary(text)) && Summary(text).toolCalls == []
  {
  }

  lemma {:induction false} StepsPaired(script: seq<Reply>, offered: set<string>, n: nat)
    requires n <= |script| && forall k | 0 <= k < n :: Completes(script[k], offered)
    ensures Paired(Steps(script, offered, n))
  {
    hide StepOf, Completes;
    if n > 0 {
      StepsPaired(script, offered, n - 1);
      StepIsPaired(script[n - 1], offered);
      PairedAppend(Steps(script, offered, n - 1), StepOf(script[n - 1], offered));
    }
  }

  lemma PromptPaired(prompt: string)
    ensures Paired(Prompt(prompt))
  {
    OneMessagePaired(UserSays(prompt));
  }

  lemma ProgressPaired(prompt: string, s: Setting, script: seq<Reply>)
    ensures Paired(ProgressOf(prompt, s, script))
  {
    hide Paired, Prompt, EndOf, Steps;
    PromptPaired(prompt);
    StepsPaired(script, s.offered, EndOf(s, script).0);
    PairedAppend(Prompt(prompt), Steps(script, s.offered, EndOf(s, script).0));
  }

  lemma ClosedPaired(ms: seq<Message>, text: string)
    requires Paired(ms)
    ensures Paired(ms + [AssistantSays(text)])
  {
    OneMessagePaired(AssistantSays(text));
    PairedAppend(ms, [AssistantSays(text)]);
  }

  // ---------- paired histories are well formed ----------

  /** Every call has an id, a name and an object for arguments. */
  predicate GoodHistory(ms: seq<Message>) {
    forall k | 0 <= k < |ms| :: GoodCalls(ms[k].toolCalls)
  }

  lemma ResultsAnswer(ms: seq<Message>, n: nat, k: nat)
    requires n < |ms| && Group(ms[n..]) && k <= |ms[n].toolCalls|
    ensures n + k < |ms| && OpenAt(ms, n, n + k + 1)
    ensures forall j | n < j <= n + k :: Answers(ms[j], ms[n].toolCalls[j - n - 1])
  {
    var g := ms[n..];
    forall j | n < j <= n + k ensures Answers(ms[j], ms[n].toolCalls[j - n - 1]) {
      assert Answers(g[(j - n - 1) + 1], g[0].toolCalls[j - n - 1]);
    }
  }

  lemma OnlyOpen(ms: seq<Message>, n: nat, m: nat)
    requires n < m <= |ms| && OpenAt(ms, n, m)
    ensures forall i | 0 <= i < m && OpenAt(ms, i, m) :: i == n
  {
  }

  /** After `k` results of the message at `n`, exactly its later calls are
      outstanding. */
  lemma OutstandingAfter(ms: seq<Message>, n: nat, k: nat, id: string)
    requires n < |ms| && Group(ms[n..]) && k <= |ms[n].toolCalls|
    requires Distinct(IdsOf(ms[n].toolCalls))
    ensures n + k < |ms|
    ensures Outstanding(ms, n + k + 1, id) <==>
            exists a | k <= a < |ms[n].toolCalls| :: ms[n].toolCalls[a].id == id
  {
    var m, calls := n + k + 1, ms[n].toolCalls;
    ResultsAnswer(ms, n, k);
    OnlyOpen(ms, n, m);
    hide Group;
    if AnsweredBetween(ms, n, m, id) {
      var j :| n < j < m && ms[j].toolCallId == Some(id);
      var b := j - n - 1;
      assert calls[b].id == id;
      forall a | k <= a < |calls| ensures calls[a].id != id {
        assert IdsOf(calls)[b] != IdsOf(calls)[a];
      }
      assert !Outstanding(ms, m, id);
    } else {
      forall a | 0 <= a < k ensures calls[a].id != id {
        assert Answers(ms[n + 1 + a], calls[a]);
      }
      assert ms[n].Calls(id) <==> exists a | k <= a < |calls| :: calls[a].id == id;
    }
  }

  lemma GroupIsWellFormed(ms: seq<Message>, n: nat)
    requires n < |ms| && Group(ms[n..]) && GoodHistory(ms)
    requires Distinct(Ids(ms, |ms|)) && WellFormedTo(ms, n) && Settled(ms, n)
    ensures var m := n + 1 + |ms[n].toolCalls|; m <= |ms| && WellFormedTo(ms, m) && Settled(ms, m)
  {
    hide Outstanding, Distinct, GoodCalls, WellFormedTo, GoodHistory, InPlace;
    var calls := ms[n].toolCalls;
    CallIdsDistinct(ms, n);
    HeadInPlace(ms, n);
    StepIn(ms, n);
    var k: nat := 0;
    ResultsAnswer(ms, n, |calls|);
    while k < |calls|
      invariant k <= |calls| && WellFormedTo(ms, n + 1 + k)
    {
      var at := n + 1 + k;
      assert Answers(ms[at], calls[k]);
      OutstandingAfter(ms, n, k, calls[k].id);
      assert InPlace(ms, at) by { ResultGoes(ms, at); }
      StepIn(ms, at);
      k := k + 1;
    }
    var end := n + |calls| + 1;
    forall id ensures !Outstanding(ms, end, id) {
      OutstandingAfter(ms, n, |calls|, id);
    }
  }

  lemma ResultGoes(ms: seq<Message>, k: nat)
    requires k < |ms| && ms[k].role == Tool && ms[k].toolCalls == [] && ms[k].toolCallId.Some?
    requires Outstanding(ms, k, ms[k].toolCallId.value)
    ensures InPlace(ms, k)
  {
  }

  lemma HeadInPlace(ms: seq<Message>, n: nat)
    requires n < |ms| && Group(ms[n..]) && Settled(ms, n)
    ensures InPlace(ms, n)
  {
    assert ms[n..][0] == ms[n];
  }

  lemma StepIn(ms: seq<Message>, n: nat)
    requires n < |ms| && WellFormedTo(ms, n) && InPlace(ms, n) && GoodHistory(ms) && Distinct(Ids(ms, |ms|))
    ensures WellFormedTo(ms, n + 1)
  {
    hide Ids, InPlace, GoodCalls, Distinct;
    EarlierDistinct(ms, n + 1, |ms|);
    WellFormedStep(ms, n);
  }

  lemma CallIdsDistinct(ms: seq<Message>, n: nat)
    requires n < |ms| && Distinct(Ids(ms, |ms|))
    ensures Distinct(IdsOf(ms[n].toolCalls))
  {
    EarlierDistinct(ms, n + 1, |ms|);
    DistinctAdd(Ids(ms, n), IdsOf(ms[n].toolCalls));
  }

  lemma {:induction false} PairedIsWellFormedFrom(ms: seq<Message>, n: nat)
    requires n <= |ms| && Paired(ms[n..]) && GoodHistory(ms) && Distinct(Ids(ms, |ms|))
    requires WellFormedTo(ms, n) && Settled(ms, n)
    ensures WellFormed(ms)
    decreases |ms| - n
  {
    hide Distinct, GoodHistory, WellFormedTo, Settled, Group;
    if n < |ms| {
      GroupIsWellFormed(ms, n);
      var m := n + 1 + |ms[n].toolCalls|;
      assert ms[n..][m - n..] == ms[m..];
      PairedIsWellFormedFrom(ms, m);
    }
  }

  /** A history whose calls are answered in order, with good calls and no id
      twice, is one the validator accepts. */
  lemma PairedIsWellFormed(ms: seq<Message>)
    requires Paired(ms) && GoodHistory(ms) && Distinct(Ids(ms, |ms|))
    ensures WellFormed(ms)
  {
    assert ms[0..] == ms;
    PairedIsWellFormedFrom(ms, 0);
  }

  // ---------- one run on a session ----------

  /** `summary` is what the provider made of the old turns, if it made anything;
      `stored` whether the store took it. */
  datatype Policy = Policy(enabled: bool, afterTurns: nat, keepRecent: nat)

  datatype Compaction = Compaction(summary: Option<string>, stored: bool)

  /** What becomes of a run: refused since another is in flight, crashed, failed
      by the store, or ended as its model run did. */
  datatype Outcome = Busy | Crashed | StoreFailed | NotSetUp | Ran(end: End)

  /** Where compaction leaves the log, and whether the run goes on. */
  function AfterCompaction(log: seq<Message>, policy: Policy, turnCount: nat, c: Compaction)
    : (seq<Message>, Option<Outcome>)
  {
    if !policy.enabled || turnCount < policy.afterTurns then (log, None)
    else
      match CompactionCut(log, policy.keepRecent)
      case OutOfBounds => (log, Some(Crashed))
      case NoCut => (log, None)
      case At(drop) =>
        if c.summary.None? then (log, None)
        else if !c.stored then (log, Some(StoreFailed))
        else (Compacted(log, drop, c.summary.value), None)
  }

  /** The turns a run adds to the log. */
  function Added(prompt: string, s: Setting, script: seq<Reply>, saved: bool): seq<Message> {
    var end, progress := EndOf(s, script).1, ProgressOf(prompt, s, script);
    if !saved then []
    else if end.Finished? then progress + Closing(s, end)
    else if progress == [] then []
    else progress + [AssistantSays(NOTE)]
  }

  class Session {
    var log: seq<Message>
    var active: bool

    /** One run on the session, from its first check to its last save. */
    method Run(
      prompt: string, policy: Policy, turnCount: nat, c: Compaction,
      setUp: bool, s: Setting, script: seq<Reply>, saved: bool) returns (outcome: Outcome)
      requires prompt != "" && s.limit.None?
      modifies this
      ensures active == old(active)
      ensures old(active) ==> outcome == Busy && log == old(log)
      ensures !old(active) ==>
        var (compacted, over) := AfterCompaction(old(log), policy, turnCount, c);
        if over.Some? then outcome == over.value && log == compacted
        else if !setUp then outcome == NotSetUp && log == compacted
        else
          && outcome == (if EndOf(s, script).1.Finished? && !saved then StoreFailed else Ran(EndOf(s, script).1))
          && log == compacted + Added(prompt, s, script, saved)
      ensures Paired(old(log)) ==> Paired(log)
    {
      hide Paired, EndOf, ProgressOf, Compacted;
      if active {
        return Busy;
      }
      active := true;
      var history := log;
      ghost var paired := Paired(log);
      if policy.enabled && turnCount >= policy.afterTurns {
        match CompactionCut(history, policy.keepRecent) {
          case OutOfBounds =>
            active := false;
            return Crashed;
          case NoCut =>
          case At(drop) =>
            if c.summary.Some? {
              if !c.stored {
                active := false;
                return StoreFailed;
              }
              history := Compacted(history, drop, c.summary.value);
              if paired { CompactedPaired(log, drop, c.summary.value); }
              log := history;
            }
        }
      }
      if !setUp {
        active := false;
        return NotSetUp;
      }
      PromptNotEmpty(history, prompt);
      var end, turns, progress := RunModel(history, prompt, s, script);
      if paired { AddedPaired(prompt, s, script, saved); PairedAppend(log, Added(prompt, s, script, saved)); }
      outcome := Ran(end);
      if end.Finished? {
        if saved {
          log := log + turns;
        } else {
          outcome := StoreFailed;
          assert log + [] == log;
        }
      } else {
        KeepPartial(progress, saved);
      }
      active := false;
    }

    /** Stores the progress of a run that was stopped, closed by the note. */
    method KeepPartial(progress: seq<Message>, saved: bool)
      modifies this`log
      ensures log == old(log) + if progress == [] || !saved then [] else progress + [AssistantSays(NOTE)]
    {
      if progress == [] {
        return;
      }
      var turns := progress + [AssistantSays(NOTE)];
      if saved {
        log := log + turns;
      }
    }
  }

  lemma PromptNotEmpty(history: seq<Message>, prompt: string)
    requires prompt != ""
    ensures history + Prompt(prompt) != []
  {
    assert (history + Prompt(prompt))[|history|] == UserSays(prompt);
  }

  lemma AddedPaired(prompt: string, s: Setting, script: seq<Reply>, saved: bool)
    ensures Paired(Added(prompt, s, script, saved))
  {
    hide ProgressOf, EndOf, LimitNote;
    ProgressPaired(prompt, s, script);
    var end, progress := EndOf(s, script).1, ProgressOf(prompt, s, script);
    ClosedPaired(progress, NOTE);
    if end.Finished? {
      ClosedPaired(progress, end.text);
    }
  }

  // ---------- runs that overlap ----------

  /** A run is waiting for the summary of the first `drop` turns it read, or has
      kept some messages so far. */
  datatype Phase = Summarizing(drop: nat, keep: nat) | Going(progress: seq<Message>)

  /** The log, the session's mark in the set of sessions with a run, the runs in
      flight, and every turn runs have stored. */
  datatype State = State(log: seq<Message>, active: bool, runs: map<nat, Phase>, stored: seq<Message>)

  /** What happens between two awaits of some run. */
  datatype Event =
    | Begin(due: bool, keep: nat)
    | Summarized(summary: Option<string>, taken: bool)
    | Prompted(prompt: string)
    | Stepped(reply: Reply, offered: set<string>)
    | Finish(text: string, taken: bool)
    | Stop(taken: bool)

  function Ended(s: State, run: nat, turns: seq<Message>): State {
    State(s.log + turns, false, s.runs - {run}, s.stored + turns)
  }

  function Step(s: State, run: nat, e: Event): State {
    if run !in s.runs then
      if !e.Begin? || s.active then s
      else
        var cut := if e.due then CompactionCut(s.log, e.keep) else NoCut;
        match cut
        case OutOfBounds => s
        case NoCut => s.(active := true, runs := s.runs[run := Going([])])
        case At(drop) => s.(active := true, runs := s.runs[run := Summarizing(drop, e.keep)])
    else
      match (s.runs[run], e)
      case (Summarizing(drop, _), Summarized(None, _)) => s.(runs := s.runs[run := Going([])])
      case (Summarizing(drop, _), Summarized(Some(text), taken)) =>
        if !taken then Ended(s, run, [])
        else s.(log := Compacted(s.log, if drop < |s.log| then drop else |s.log|, text),
                runs := s.runs[run := Going([])])
      case (Summarizing(_, _), Stop(_)) => Ended(s, run, [])
      case (Going(p), Prompted(prompt)) => if p == [] then s.(runs := s.runs[run := Going(Prompt(prompt))]) else s
      case (Going(p), Stepped(reply, offered)) =>
        if Completes(reply, offered) then s.(runs := s.runs[run := Going(p + StepOf(reply, offered))]) else s
      case (Going(p), Finish(text, taken)) => Ended(s, run, if taken then p + [AssistantSays(text)] else [])
      case (Going(p), Stop(taken)) => Ended(s, run, if taken && p != [] then p + [AssistantSays(NOTE)] else [])
      case _ => s
  }

  function Runs(s: State, events: seq<(nat, Event)>): State
    decreases |events|
  {
    if events == [] then s else Runs(Step(s, events[0].0, events[0].1), events[1..])
  }

  /** The log is what runs stored, or a summary and the end of what they stored. */
  ghost predicate EndOfStored(log: seq<Message>, stored: seq<Message>) {
    || log == stored
    || exists d: nat :: SummaryAndEnd(log, stored, d)
  }

  predicate SummaryAndEnd(log: seq<Message>, stored: seq<Message>, d: nat) {
    d <= |stored| && log != [] && Heads(log[0]) && log[1..] == stored[d..]
  }

  predicate SoundPhase(log: seq<Message>, phase: Phase) {
    match phase
    case Summarizing(drop, keep) => Safe(log, drop) && drop + keep <= |log|
    case Going(progress) => Paired(progress)
  }

  /** At most one run is in flight, and what it read is still the log. */
  ghost predicate Sound(s: State) {
    && (s.active <==> s.runs != map[])
    && (forall a, b | a in s.runs && b in s.runs :: a == b)
    && (forall r | r in s.runs :: SoundPhase(s.log, s.runs[r]))
    && Paired(s.log)
    && EndOfStored(s.log, s.stored)
  }

  lemma StoresMore(log: seq<Message>, stored: seq<Message>, turns: seq<Message>)
    requires EndOfStored(log, stored)
    ensures EndOfStored(log + turns, stored + turns)
  {
    if log != stored {
      var d: nat :| SummaryAndEnd(log, stored, d);
      DropOfSum(log, turns, 1);
      DropOfSum(stored, turns, d);
      assert SummaryAndEnd(log + turns, stored + turns, d);
    }
  }

  lemma CompactedEnds(log: seq<Message>, stored: seq<Message>, drop: nat, text: string)
    requires EndOfStored(log, stored) && 0 < drop <= |log|
    ensures EndOfStored(Compacted(log, drop, text), stored)
  {
    SummaryHeads(text);
    hide Summary, Heads;
    var next := Compacted(log, drop, text);
    assert next[1..] == log[drop..];
    if log == stored {
      assert SummaryAndEnd(next, stored, drop);
    } else {
      var d: nat :| SummaryAndEnd(log, stored, d);
      assert log[drop..] == log[1..][drop - 1..];
      assert stored[d..][drop - 1..] == stored[d + (drop - 1)..];
      assert SummaryAndEnd(next, stored, d + (drop - 1));
    }
  }

  lemma EndedSound(s: State, run: nat, turns: seq<Message>)
    requires Sound(s) && run in s.runs && Paired(turns)
    ensures Sound(Ended(s, run, turns))
  {
    hide SoundPhase, Paired, EndOfStored;
    PairedAppend(s.log, turns);
    StoresMore(s.log, s.stored, turns);
    assert s.runs - {run} == map[];
  }

  /** The run's next phase is sound for the next log. */
  lemma MovedSound(s: State, run: nat, log: seq<Message>, phase: Phase)
    requires Sound(s) && (run in s.runs || !s.active)
    requires Paired(log) && EndOfStored(log, s.stored) && SoundPhase(log, phase)
    ensures Sound(s.(log := log, active := true, runs := s.runs[run := phase]))
  {
    hide SoundPhase, Paired, EndOfStored;
  }

  lemma GoingStep(s: State, run: nat, e: Event)
    requires Sound(s) && run in s.runs && s.runs[run].Going?
    ensures Sound(Step(s, run, e))
  {
    hide Paired, EndOfStored, Prompt, StepOf, Completes, Sound;
    var p := s.runs[run].progress;
    assert Paired(p) && s.active && Paired(s.log) && EndOfStored(s.log, s.stored) by { RunFacts(s, run); }
    match e
    case Prompted(prompt) =>
      PromptPaired(prompt);
      MovedSound(s, run, s.log, Going(Prompt(prompt)));
    case Stepped(reply, offered) =>
      if Completes(reply, offered) {
        StepIsPaired(reply, offered);
        PairedAppend(p, StepOf(reply, offered));
        MovedSound(s, run, s.log, Going(p + StepOf(reply, offered)));
      }
    case Finish(text, taken) =>
      ClosedPaired(p, text);
      NonePaired();
      EndedSound(s, run, if taken then p + [AssistantSays(text)] else []);
    case Stop(taken) =>
      ClosedPaired(p, NOTE);
      NonePaired();
      EndedSound(s, run, if taken && p != [] then p + [AssistantSays(NOTE)] else []);
    case _ =>
  }

  lemma NonePaired()
    ensures Paired([])
  {
  }

  lemma RunFacts(s: State, run: nat)
    requires Sound(s) && run in s.runs
    ensures s.active && Paired(s.log) && EndOfStored(s.log, s.stored) && SoundPhase(s.log, s.runs[run])
  {
    hide SoundPhase, Paired, EndOfStored;
  }

  lemma SummarizingStep(s: State, run: nat, e: Event)
    requires Sound(s) && run in s.runs && s.runs[run].Summarizing?
    ensures Sound(Step(s, run, e))
  {
    hide Paired, EndOfStored, Compacted, Sound;
    var drop := s.runs[run].drop;
    assert s.active && Paired(s.log) && EndOfStored(s.log, s.stored) && Safe(s.log, drop) by { RunFacts(s, run); }
    NonePaired();
    EndedSound(s, run, []);
    MovedSound(s, run, s.log, Going([]));
    if e.Summarized? && e.summary.Some? && e.taken {
      CompactedPaired(s.log, drop, e.summary.value);
      CompactedEnds(s.log, s.stored, drop, e.summary.value);
      MovedSound(s, run, Compacted(s.log, drop, e.summary.value), Going([]));
    }
  }

  lemma StepSound(s: State, run: nat, e: Event)
    requires Sound(s)
    ensures Sound(Step(s, run, e))
  {
    if run in s.runs {
      hide Step, Sound;
      if s.runs[run].Going? { GoingStep(s, run, e); } else { SummarizingStep(s, run, e); }
    } else if e.Begin? && !s.active {
      var cut := if e.due then CompactionCut(s.log, e.keep) else NoCut;
      hide CompactionCut, Paired, EndOfStored;
      NonePaired();
      MovedSound(s, run, s.log, Going([]));
      if cut.At? {
        MovedSound(s, run, s.log, Summarizing(cut.drop, e.keep));
      }
    }
  }

  /** However runs on a session begin, overlap, fail, are stopped or compact its
      history, at most one is in flight, the stored history has every call
      answered in order, and it is all that was stored or a summary and the end
      of what was stored. */
  lemma {:induction false} SessionStaysSound(s: State, events: seq<(nat, Event)>)
    requires Sound(s)
    ensures Sound(Runs(s, events))
    decreases |events|
  {
    hide Step, Sound;
    if events != [] {
      StepSound(s, events[0].0, events[0].1);
      SessionStaysSound(Step(s, events[0].0, events[0].1), events[1..]);
    }
  }

  /** A new session is sound. */
  lemma NewSessionSound()
    ensures Sound(State([], false, map[], []))
  {
  }

  /** Between the cut and the summary nothing else changes the log, so a
      compaction keeps the recent turns it promised, word for word. */
  lemma CompactionKeepsRecent(s: State, run: nat, text: string)
    requires Sound(s) && run in s.runs && s.runs[run].Summarizing?
    ensures var keep, next := s.runs[run].keep, Step(s, run, Summarized(Some(text), true)).log;
            && keep <= |s.log| && keep < |next|
            && next[|next| - keep..] == s.log[|s.log| - keep..]
            && next[0] == Summary(text) && next[1].role == User
  {
    hide Paired, EndOfStored, Summary;
    RunFacts(s, run);
    var drop, keep := s.runs[run].drop, s.runs[run].keep;
    var next := Compacted(s.log, drop, text);
    assert next[1] == s.log[drop];
    assert next[|next| - keep..] == s.log[|s.log| - keep..];
  }

  // ---------- a whole run is such a sequence of events ----------

  function StepEvents(run: nat, script: seq<Reply>, offered: set<string>, n: nat): seq<(nat, Event)>
    requires n <= |script|
  {
    if n == 0 then [] else StepEvents(run, script, offered, n - 1) + [(run, Stepped(script[n - 1], offered))]
  }

  /** What a model run does to a session, await by await. */
  function RunEvents(run: nat, prompt: string, s: Setting, script: seq<Reply>, saved: bool): seq<(nat, Event)> {
    var (n, end) := EndOf(s, script);
    [(run, Prompted(prompt))] + StepEvents(run, script, s.offered, n)
    + [(run, if end.Finished? then Finish(end.text, saved) else Stop(saved))]
  }

  lemma {:induction false} RunsInTurn(s: State, a: seq<(nat, Event)>, b: seq<(nat, Event)>)
    ensures Runs(s, a + b) == Runs(Runs(s, a), b)
    decreases |a|
  {
    hide Step;
    if a == [] {
      assert a + b == b;
    } else {
      assert (a + b)[1..] == a[1..] + b;
      RunsInTurn(Step(s, a[0].0, a[0].1), a[1..], b);
    }
  }

  lemma RunsOne(s: State, run: nat, e: Event)
    ensures Runs(s, [(run, e)]) == Step(s, run, e)
  {
    hide Step;
    assert [(run, e)][1..] == [];
    assert Runs(Step(s, run, e), []) == Step(s, run, e);
  }

  function GoingOn(s: State, run: nat, progress: seq<Message>): State {
    s.(runs := s.runs[run := Going(progress)])
  }

  lemma {:induction false} StepsGoOn(
    s: State, run: nat, p: seq<Message>, script: seq<Reply>, offered: set<string>, n: nat)
    requires n <= |script| && forall k | 0 <= k < n :: Completes(script[k], offered)
    ensures Runs(GoingOn(s, run, p), StepEvents(run, script, offered, n)) ==
            GoingOn(s, run, p + Steps(script, offered, n))
  {
    hide Completes, StepOf;
    if n == 0 {
      assert p + [] == p;
    } else {
      var e := Stepped(script[n - 1], offered);
      var was := GoingOn(s, run, p + Steps(script, offered, n - 1));
      StepsGoOn(s, run, p, script, offered, n - 1);
      RunsInTurn(GoingOn(s, run, p), StepEvents(run, script, offered, n - 1), [(run, e)]);
      RunsOne(was, run, e);
      assert (p + Steps(script, offered, n - 1)) + StepOf(script[n - 1], offered) == p + Steps(script, offered, n);
      assert Step(was, run, e) == GoingOn(s, run, p + Steps(script, offered, n)) by {
        var going := Going(p + Steps(script, offered, n));
        assert was.runs[run := going] == s.runs[run := going];
      }
    }
  }

  /** Taken event by event, a model run that got its session leaves the log the
      whole run leaves. */
  lemma RunIsItsEvents(s: State, run: nat, prompt: string, setting: Setting, script: seq<Reply>, saved: bool)
    requires run in s.runs && s.runs[run] == Going([]) && setting.limit.None?
    ensures Runs(s, RunEvents(run, prompt, setting, script, saved)) ==
            Ended(s, run, Added(prompt, setting, script, saved))
  {
    hide Prompt, Steps, StepEvents, NOTE;
    var (n, end) := EndOf(setting, script);
    NoLimitHit(setting, script);
    hide EndOf;
    var first, last := Prompted(prompt), if end.Finished? then Finish(end.text, saved) else Stop(saved);
    var steps := StepEvents(run, script, setting.offered, n);
    var progress := ProgressOf(prompt, setting, script);
    RunsOne(s, run, first);
    assert Step(s, run, first) == GoingOn(s, run, Prompt(prompt));
    StepsGoOn(s, run, Prompt(prompt), script, setting.offered, n);
    var was := GoingOn(s, run, progress);
    RunsInTurn(s, [(run, first)], steps);
    RunsInTurn(s, [(run, first)] + steps, [(run, last)]);
    RunsOne(was, run, last);
    assert was.runs - {run} == s.runs - {run};
  }

  lemma NoLimitHit(s: Setting, script: seq<Reply>)
    requires s.limit.None?
    ensures !EndOf(s, script).1.HitLimit?
  {
    if !s.ownsTools {
      NoLimitFrom(s, script, 0);
    }
  }

  lemma {:induction false} NoLimitFrom(s: Setting, script: seq<Reply>, n: nat)
    requires s.limit.None? && n <= |script|
    ensures !EndFrom(s, script, n).1.HitLimit?
    decreases |script| - n
  {
    hide Completes;
    if EndsAt(s, script, n).None? {
      NoLimitFrom(s, script, n + 1);
    }
  }

  // ---------- how long runs and histories get ----------

  /** A run outside a session stops at its limit exactly when that many replies
      call tools and all their calls return. */
  lemma LimitExactly(s: Setting, script: seq<Reply>)
    requires !s.ownsTools && s.limit.Some?
    ensures EndOf(s, script).0 <= s.limit.value
    ensures EndOf(s, script).1.HitLimit? <==>
            s.limit.value <= |script| && forall k | 0 <= k < s.limit.value :: Completes(script[k], s.offered)
  {
    LimitFrom(s, script, 0);
  }

  lemma {:induction false} LimitFrom(s: Setting, script: seq<Reply>, n: nat)
    requires s.limit.Some? && n <= |script| && n <= s.limit.value
    ensures EndFrom(s, script, n).0 <= s.limit.value
    ensures EndFrom(s, script, n).1.HitLimit? <==>
            s.limit.value <= |script| && forall k | n <= k < s.limit.value :: Completes(script[k], s.offered)
    decreases |script| - n
  {
    if EndsAt(s, script, n).None? {
      LimitFrom(s, script, n + 1);
    }
  }

  /** A run finishes exactly where the first reply without calls comes after
      replies whose calls all returned. */
  lemma FinishesExactly(s: Setting, script: seq<Reply>, n: nat, text: string)
    requires !s.ownsTools && s.limit.None?
    ensures EndOf(s, script) == (n, Finished(text)) <==>
            && n < |script| && script[n].Reply? && script[n].calls == [] && script[n].text == text
            && forall k | 0 <= k < n :: Completes(script[k], s.offered)
  {
    FinishesFrom(s, script, 0, n, text);
  }

  lemma {:induction false} FinishesFrom(s: Setting, script: seq<Reply>, m: nat, n: nat, text: string)
    requires s.limit.None? && m <= |script|
    ensures EndFrom(s, script, m) == (n, Finished(text)) <==>
            && m <= n < |script| && script[n].Reply? && script[n].calls == [] && script[n].text == text
            && forall k | m <= k < n :: Completes(script[k], s.offered)
    decreases |script| - m
  {
    if EndsAt(s, script, m).None? {
      FinishesFrom(s, script, m + 1, n, text);
    }
  }

  /** Compaction leaves a log below its threshold alone, never makes one longer,
      and keeps its last turns. */
  lemma CompactionBounds(log: seq<Message>, policy: Policy, c: Compaction)
    ensures var (next, over) := AfterCompaction(log, policy, |log|, c);
            && (|log| < policy.afterTurns ==> next == log && over.None?)
            && |next| <= |log|
            && (next != log ==>
                  && 0 < policy.keepRecent < |next|
                  && next[|next| - policy.keepRecent..] == log[|log| - policy.keepRecent..])
            && (over == Some(Crashed) <==>
                  policy.enabled && |log| >= policy.afterTurns && policy.keepRecent == 0 && log != [])
  {
    hide Summary;
    var cut := CompactionCut(log, policy.keepRecent);
    if cut.At? && c.summary.Some? {
      var next := Compacted(log, cut.drop, c.summary.value);
      assert next[|next| - policy.keepRecent..] == log[|log| - policy.keepRecent..];
    }
  }
}
