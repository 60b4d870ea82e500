/** What a run on a session writes, message by message. */
module SessionFacts {
  import opened Base
  import opened Conversation
  import opened Sessions
  import opened SessionRuns

  // ---------- the results of a step ----------

  /** The first `n` calls that are of offered tools. */
  function OfferedTo(calls: seq<ToolCall>, n: nat, offered: set<string>): set<nat>
    requires n <= |calls|
  {
    set k | 0 <= k < n && calls[k].name in offered
  }

  lemma {:induction false} AwaitedIs(calls: seq<ToolCall>, n: nat, offered: set<string>)
    requires n <= |calls|
    ensures Awaited(calls, n, offered) == |OfferedTo(calls, n, offered)|
  {
    if n > 0 {
      AwaitedIs(calls, n - 1, offered);
      assert OfferedTo(calls, n, offered)
          == OfferedTo(calls, n - 1, offered) + if calls[n - 1].name in offered then {n - 1} else {};
    } else {
      assert OfferedTo(calls, 0, offered) == {};
    }
  }

  /** The reply calls tools, and every call of an offered one has returned. */
  predicate Returned(r: Reply, offered: set<string>) {
    && r.Reply? && r.calls != []
    && |OfferedTo(r.calls, |r.calls|, offered)| <= |r.results|
  }

  lemma ReturnedIs(r: Reply, offered: set<string>)
    ensures Completes(r, offered) <==> Returned(r, offered)
  {
    if r.Reply? {
      AwaitedIs(r.calls, |r.calls|, offered);
    }
  }

  /** The message answers call `k` with what its own tool returned, its results counted
      over the calls of offered tools before it; a call of another tool is told that it was
      not offered. */
  predicate SaysResult(r: Reply, offered: set<string>, k: nat, m: Message)
    requires r.Reply? && k < |r.calls|
  {
    && m.role == Tool && m.toolCalls == [] && m.toolCallId == Some(r.calls[k].id)
    && if r.calls[k].name in offered then
         var own := |OfferedTo(r.calls, k, offered)|;
         own < |r.results| && m.content == r.results[own]
       else
         m.content == "tool call failed (`" + r.calls[k].name + "` is not one of the tools this runner was given)"
  }

  lemma {:induction false} ResultSays(r: Reply, offered: set<string>, n: nat, k: nat)
    requires r.Reply? && k < n <= |r.calls| && Awaited(r.calls, n, offered) <= |r.results|
    ensures SaysResult(r, offered, k, Results(r.calls, n, offered, r.results)[k])
  {
    if k == n - 1 {
      AwaitedIs(r.calls, k, offered);
    } else {
      ResultSays(r, offered, n - 1, k);
    }
  }

  /** A completed reply is written down as it came, its calls with it, and then a result
      for each call, in order, each with what its own tool returned. */
  ghost predicate SaysStep(r: Reply, offered: set<string>, ms: seq<Message>) {
    && r.Reply? && |ms| == 1 + |r.calls|
    && ms[0] == Message(Assistant, r.text, r.calls, None)
    && forall k | 0 < k < |ms| :: SaysResult(r, offered, k - 1, ms[k])
  }

  lemma StepSays(r: Reply, offered: set<string>)
    requires Completes(r, offered)
    ensures SaysStep(r, offered, StepOf(r, offered))
  {
    hide SaysResult, Awaited;
    var ms := StepOf(r, offered);
    forall k | 0 < k < |ms| ensures SaysResult(r, offered, k - 1, ms[k]) {
      ResultSays(r, offered, |r.calls|, k - 1);
    }
  }

  /** The messages are those of the first `n` replies, one step after the other. */
  ghost predicate SaysSteps(script: seq<Reply>, offered: set<string>, n: nat, ms: seq<Message>)
    requires n <= |script|
  {
    if n == 0 then ms == []
    else
      var r := script[n - 1];
      && r.Reply? && 1 + |r.calls| <= |ms|
      && var at := |ms| - 1 - |r.calls|;
         SaysStep(r, offered, ms[at..]) && SaysSteps(script, offered, n - 1, ms[..at])
  }

  lemma SaysOneMore(script: seq<Reply>, offered: set<string>, n: nat, before: seq<Message>, step: seq<Message>)
    requires 0 < n <= |script|
    requires SaysSteps(script, offered, n - 1, before) && SaysStep(script[n - 1], offered, step)
    ensures SaysSteps(script, offered, n, before + step)
  {
    assert |step| == 1 + |script[n - 1].calls|;
    hide SaysStep;
    var ms := before + step;
    assert ms[|ms| - |step|..] == step && ms[..|ms| - |step|] == before;
  }

  lemma {:induction false} StepsSay(script: seq<Reply>, offered: set<string>, n: nat)
    requires n <= |script| && forall k | 0 <= k < n :: Completes(script[k], offered)
    ensures SaysSteps(script, offered, n, Steps(script, offered, n))
  {
    hide StepOf, Completes, SaysStep;
    if n > 0 {
      StepsSay(script, offered, n - 1);
      StepSays(script[n - 1], offered);
      SaysOneMore(script, offered, n, Steps(script, offered, n - 1), StepOf(script[n - 1], offered));
    }
  }

  // ---------- how a run ends ----------

  /** Every reply before the last was completed, and the run stayed within its limit. It
      ended there for one of these reasons: the limit was reached; the run was stopped while
      it waited, for a reply or for a call; the provider failed; or a reply called nothing. */
  lemma EndsExactly(s: Setting, script: seq<Reply>)
    requires !s.ownsTools
    ensures var (n, end) := EndOf(s, script);
            var within := s.limit.None? || n < s.limit.value;
            && n <= |script|
            && (forall k | 0 <= k < n :: Returned(script[k], s.offered))
            && (s.limit.Some? ==> n <= s.limit.value)
            && match end
               case HitLimit => s.limit == Some(n)
               case Stopped =>
                 && within
                 && (n < |script| ==> script[n].Reply? && script[n].calls != [] && !Returned(script[n], s.offered))
               case Failed => within && n < |script| && script[n] == Failure
               case Finished(text) => within && n < |script| && script[n].Reply? && script[n].calls == []
                                      && script[n].text == text
  {
    hide Completes, Returned;
    forall r ensures Completes(r, s.offered) <==> Returned(r, s.offered) {
      ReturnedIs(r, s.offered);
    }
    EndsFrom(s, script, 0);
  }

  lemma {:induction false} EndsFrom(s: Setting, script: seq<Reply>, m: nat)
    requires m <= |script| && (s.limit.Some? ==> m <= s.limit.value)
    ensures var (n, end) := EndFrom(s, script, m);
            && (s.limit.Some? ==> n <= s.limit.value)
            && EndsAt(s, script, n) == Some(end)
    decreases |script| - m
  {
    hide Completes;
    if EndsAt(s, script, m).None? {
      EndsFrom(s, script, m + 1);
    }
  }

  /** A provider that calls tools itself is asked once, and what it says ends the run. */
  lemma OwnToolsEnd(s: Setting, script: seq<Reply>)
    requires s.ownsTools
    ensures EndOf(s, script) ==
            (0, if script == [] then Stopped
                else match script[0] case Failure => Failed case Reply(text, _, _) => Finished(text))
  {
  }

  // ---------- what a run stores ----------

  /** What a run adds to the stored history: nothing when the store fails; else its prompt,
      its completed steps, and its answer, or a note when it was stopped before one. */
  lemma RunStores(prompt: string, s: Setting, script: seq<Reply>, saved: bool)
    requires prompt != "" && s.limit.None?
    ensures var added, (n, end) := Added(prompt, s, script, saved), EndOf(s, script);
            && (!saved ==> added == [])
            && (saved ==>
                  var last := |added| - 1;
                  && last > 0
                  && added[0] == Message(User, prompt, [], None)
                  && SaysSteps(script, s.offered, n, added[1..last])
                  && added[last] == Message(Assistant,
                       if end.Finished? then end.text else "(This reply was stopped before it finished.)", [], None))
  {
    hide EndOf, SaysSteps, Steps, Completes;
    NoLimitHit(s, script);
    var n := EndOf(s, script).0;
    StepsSay(script, s.offered, n);
    var steps := Steps(script, s.offered, n);
    if saved {
      var added := Added(prompt, s, script, saved);
      var last := |added| - 1;
      assert added == [UserSays(prompt)] + steps + [added[last]];
      assert added[1..last] == steps;
    }
  }

  /** A run outside a session hands back the same, and at its limit says so. */
  lemma RunHandsBack(prompt: string, s: Setting, script: seq<Reply>)
    requires prompt != ""
    ensures var (n, end) := EndOf(s, script);
            var turns := ProgressOf(prompt, s, script) + Closing(s, end);
            end.Finished? || end.HitLimit? ==>
              var last := |turns| - 1;
              && last > 0
              && turns[0] == Message(User, prompt, [], None)
              && SaysSteps(script, s.offered, n, turns[1..last])
              && turns[last].role == Assistant && turns[last].toolCalls == []
              && (end.Finished? ==> turns[last].content == end.text)
              && (end.HitLimit? && s.limit.Some? ==>
                    turns[last].content
                      == "I stopped after using all " + Decimal(s.limit.value) + " turns without finishing.")
  {
    hide EndOf, SaysSteps, Steps, Completes;
    var (n, end) := EndOf(s, script);
    StepsSay(script, s.offered, n);
    if end.Finished? || end.HitLimit? {
      var steps, turns := Steps(script, s.offered, n), ProgressOf(prompt, s, script) + Closing(s, end);
      var last := |turns| - 1;
      assert turns == [UserSays(prompt)] + steps + Closing(s, end);
      assert turns[1..last] == steps;
    }
  }

  // ---------- compaction ----------

  /** The history may be cut before message `n`, and at least `keep` messages stay. */
  predicate MayCut(log: seq<Message>, keep: nat, n: nat) {
    0 < n < |log| && n + keep <= |log| && log[n].role == User && log[n].toolCallId == None
  }

  /** What compaction does to a log: nothing before it is due, without a place to cut or a
      summary, or when the store fails, which ends the run; else the messages before the
      latest place to cut give way to the summary. */
  lemma CompactionExactly(log: seq<Message>, policy: Policy, turnCount: nat, c: Compaction)
    requires policy.keepRecent > 0
    ensures var (next, over) := AfterCompaction(log, policy, turnCount, c);
            var due := policy.enabled && turnCount >= policy.afterTurns
                       && (exists n: nat :: MayCut(log, policy.keepRecent, n)) && c.summary.Some?;
            && (over == if due && !c.stored then Some(StoreFailed) else None)
            && (next == log || (due && c.stored))
            && (due && c.stored ==>
                  exists n: nat :: MayCut(log, policy.keepRecent, n)
                    && (forall m: nat | MayCut(log, policy.keepRecent, m) :: m <= n)
                    && next == [Message(User, "[Conversation summary]\n" + c.summary.value, [], None)] + log[n..])
  {
    var cut := CompactionCut(log, policy.keepRecent);
    hide CompactionCut;
    assert forall n: nat :: MayCut(log, policy.keepRecent, n) <==> Safe(log, n) && n + policy.keepRecent <= |log|;
    if cut.At? {
      assert MayCut(log, policy.keepRecent, cut.drop);
    }
  }

  // ---------- a whole run is such a sequence of events ----------

  /** Everything a run does to its session, from its first check to its last save. */
  function AllEvents(
    log: seq<Message>, run: nat, prompt: string, policy: Policy, turnCount: nat, c: Compaction,
    setUp: bool, s: Setting, script: seq<Reply>, saved: bool): seq<(nat, Event)>
  {
    var due := policy.enabled && turnCount >= policy.afterTurns;
    [(run, Begin(due, policy.keepRecent))]
    + (if due && CompactionCut(log, policy.keepRecent).At? then [(run, Summarized(c.summary, c.stored))] else [])
    + if setUp then RunEvents(run, prompt, s, script, saved) else [(run, Stop(saved))]
  }

  lemma {:induction false} Ignored(s: State, run: nat, events: seq<(nat, Event)>)
    requires run !in s.runs
    requires forall k | 0 <= k < |events| :: events[k].0 == run && !events[k].1.Begin?
    ensures Runs(s, events) == s
    decreases |events|
  {
    if events != [] {
      Ignored(s, run, events[1..]);
    }
  }

  lemma {:induction false} StepEventsOf(run: nat, script: seq<Reply>, offered: set<string>, n: nat)
    requires n <= |script|
    ensures forall e | e in StepEvents(run, script, offered, n) :: e.0 == run && e.1.Stepped?
  {
    if n > 0 {
      StepEventsOf(run, script, offered, n - 1);
    }
  }

  lemma NoBegin(run: nat, prompt: string, s: Setting, script: seq<Reply>, saved: bool)
    ensures var events := RunEvents(run, prompt, s, script, saved);
            forall k | 0 <= k < |events| :: events[k].0 == run && !events[k].1.Begin?
  {
    hide EndOf, StepEvents;
    StepEventsOf(run, script, s.offered, EndOf(s, script).0);
  }

  /** Where a session stands once a run has begun and its history is compacted, or the run
      is over. */
  lemma Opens(st: State, run: nat, policy: Policy, turnCount: nat, c: Compaction)
    requires !st.active && run !in st.runs
    ensures var (compacted, over) := AfterCompaction(st.log, policy, turnCount, c);
            var due := policy.enabled && turnCount >= policy.afterTurns;
            var begun := Step(st, run, Begin(due, policy.keepRecent));
            var cuts := due && CompactionCut(st.log, policy.keepRecent).At?;
            var now := if cuts then Step(begun, run, Summarized(c.summary, c.stored)) else begun;
            now == if over.Some? then st
                   else st.(log := compacted, active := true, runs := st.runs[run := Going([])])
  {
    hide Compacted;
    assert st.runs[run := Going([])] - {run} == st.runs;
    var cut := CompactionCut(st.log, policy.keepRecent);
    hide CompactionCut;
    if cut.At? {
      assert st.runs[run := Summarizing(cut.drop, policy.keepRecent)][run := Going([])] == st.runs[run := Going([])];
      assert st.runs[run := Summarizing(cut.drop, policy.keepRecent)] - {run} == st.runs;
      assert st.log + [] == st.log && st.stored + [] == st.stored;
    }
  }

  /** A run taken event by event leaves the session as the run as a whole leaves it. */
  lemma RunIsAllItsEvents(
    st: State, run: nat, prompt: string, policy: Policy, turnCount: nat, c: Compaction,
    setUp: bool, s: Setting, script: seq<Reply>, saved: bool)
    requires !st.active && run !in st.runs && s.limit.None?
    ensures var (compacted, over) := AfterCompaction(st.log, policy, turnCount, c);
            var added := if over.None? && setUp then Added(prompt, s, script, saved) else [];
            Runs(st, AllEvents(st.log, run, prompt, policy, turnCount, c, setUp, s, script, saved)) ==
            st.(log := compacted + added, stored := st.stored + added)
  {
    hide RunEvents, AfterCompaction, Added;
    var (compacted, over) := AfterCompaction(st.log, policy, turnCount, c);
    var due := policy.enabled && turnCount >= policy.afterTurns;
    var first := [(run, Begin(due, policy.keepRecent))];
    var second := if due && CompactionCut(st.log, policy.keepRecent).At? then [(run, Summarized(c.summary, c.stored))]
                  else [];
    var last := if setUp then RunEvents(run, prompt, s, script, saved) else [(run, Stop(saved))];
    Opens(st, run, policy, turnCount, c);
    OverKeeps(st.log, policy, turnCount, c);
    var begun := Step(st, run, first[0].1);
    RunsOne(st, run, first[0].1);
    RunsInTurn(st, first, second);
    RunsInTurn(st, first + second, last);
    if second != [] {
      RunsOne(begun, run, second[0].1);
    }
    hide Step, CompactionCut;
    var now := Runs(st, first + second);
    if over.Some? {
      NoBegin(run, prompt, s, script, saved);
      Ignored(st, run, last);
      assert compacted + [] == compacted && st.stored + [] == st.stored;
    } else if setUp {
      RunIsItsEvents(now, run, prompt, s, script, saved);
      assert now.runs - {run} == st.runs;
    } else {
      RunsOne(now, run, Stop(saved));
      StopsEmpty(now, run, saved);
      assert now.runs - {run} == st.runs;
    }
  }

  lemma OverKeeps(log: seq<Message>, policy: Policy, turnCount: nat, c: Compaction)
    ensures var (compacted, over) := AfterCompaction(log, policy, turnCount, c);
            over.Some? ==> compacted == log
  {
  }

  lemma StopsEmpty(s: State, run: nat, saved: bool)
    requires run in s.runs && s.runs[run] == Going([])
    ensures Step(s, run, Stop(saved)) == Ended(s, run, [])
  {
  }
}
