/** One file through a captured call: what the scan before the call makes of it,
    what the scan after it records, and whether its history keeps in step. */
module Captures {
  import opened Base
  import opened Splices
  import opened Timelines
  import opened TimelineRuns

  /** The scan before the call. `known` is the content the last scan of the folder
      found, if there was one; a file that differs is accepted as it is. */
  function Begun(s: State, known: Option<Option<Bytes>>, env: Env): State
    requires ValidLog(s.log)
  {
    if known.Some? && known.value != s.site.Content() then From(Acknowledged(s.log, s.site, env)) else s
  }

  /** The scan after the call found `after` where the one before it found `before`.
      A change the history expects is recorded already; any other is recorded
      now. */
  function Ended(s: State, before: Option<Snapshot>, after: Option<Snapshot>, env: Env): (State, Option<nat>)
    requires ValidLog(s.log)
  {
    if SnapshotDigest(before) == SnapshotDigest(after) then (s, None)
    else if s.log.changes != [] && DigestOf(At(s.log.changes, s.log.current)) == SnapshotDigest(after) then
      (s, Some(s.log.current))
    else
      var o := Recorded(s.log, s.site, before, after, env);
      (From(o), if o.result.Ok? then Some(o.result.value) else None)
  }

  /** Once the call starts, the history expects the file as it is, unless it did
      not before and the scan saw no difference. */
  lemma BeginsInStep(s: State, known: Option<Option<Bytes>>, env: Env)
    requires Good(s) && !env.readFails
    ensures var t := Begun(s, known, env);
            && Good(t) && t.site.Content() == s.site.Content()
            && (Holds(t.log, t.site) <==>
                  Holds(s.log, s.site) || (known.Some? && known.value != s.site.Content()))
  {
    if known.Some? && known.value != s.site.Content() {
      StepKeepsGood(s, Acknowledge(env));
      HintAgreesWithReading(s, env);
      var read := AcknowledgedByReading(s.log, s.site, env);
      assert Holds(read.log, read.site);
    }
  }

  /** Once the call ends, the history expects the file as the scan found it,
      unless the scan saw no difference and the history does not expect that
      content. A change that is reported has a revision, with that content. */
  lemma EndsInStep(s: State, before: Option<Snapshot>, after: Option<Snapshot>, env: Env)
    requires Good(s) && Honest(before) && Honest(after) && !env.readFails
    requires SnapshotDigest(after) == s.site.Content()
    ensures var (t, revision) := Ended(s, before, after, env);
            var reported := SnapshotDigest(before) != SnapshotDigest(after);
            && Good(t) && Extends(s.log, t.log)
            && (Holds(t.log, t.site) <==> Holds(s.log, s.site) || reported)
            && (revision.Some? <==> reported)
            && (reported ==>
                  && revision == Some(t.log.current)
                  && Known(t.log.changes, t.log.current)
                  && DigestOf(At(t.log.changes, t.log.current)) == SnapshotDigest(after))
  {
    hide Between, LeftOff, ValidTree, RedoChain;
    var e := Event.External(before, after, env);
    StepKeepsGood(s, e);
    StepExtends(s, e);
  }

  predicate OnlyOthers(es: seq<Event>) {
    forall e | e in es :: e.OutsideWrite? || e.Tick?
  }

  lemma {:induction false} OthersLeaveTheLog(s: State, es: seq<Event>)
    requires Good(s) && OnlyOthers(es)
    ensures forall e | e in es :: e.Allowed()
    ensures Run(s, es).log == s.log
    decreases |es|
  {
    if es != [] {
      assert es[0] in es;
      assert forall e | e in es[1..] :: e in es;
      StepKeepsGood(s, es[0]);
      OthersLeaveTheLog(Step(s, es[0]), es[1..]);
    }
  }

  /** A file that a call's programs changed, however often, can be put back by one
      undo exactly when the scans kept both contents; and then it holds what it
      held before the call. */
  lemma {:induction false} CapturedChangeCanBeUndone(
    s: State, es: seq<Event>, before: Option<Snapshot>, after: Option<Snapshot>, env: Env)
    requires Good(s) && Holds(s.log, s.site) && OnlyOthers(es)
    requires forall e | e in es :: e.Allowed()
    requires Honest(before) && Honest(after) && !env.readFails && !env.commitFails
    requires SnapshotDigest(before) == s.site.Content() && SnapshotDigest(after) == Run(s, es).site.Content()
    requires SnapshotDigest(before) != SnapshotDigest(after)
    ensures var t := Ended(Run(s, es), before, after, env).0;
            var o := (EndsInStep(Run(s, es), before, after, env); Undone(t.log, t.site, env));
            && (o.result.Ok? <==>
                  (before.None? || before.value.content.Some?) && (after.None? || after.value.content.Some?))
            && (o.result.Ok? ==> o.site.Content() == s.site.Content())
  {
    hide Between, Recorded, Undone, ValidTree, RedoChain;
    OthersLeaveTheLog(s, es);
    var late := Run(s, es);
    assert late.log.changes != [] ==> DigestOf(At(late.log.changes, late.log.current)) != SnapshotDigest(after);
    ExternalCanBeUndone(late, before, after, env);
    assert LeftOff(late.log, before) == (StampOf(SnapshotDigest(before)), Kept(before));
  }

  /** When a call writes a file through its history and a program then puts the
      old content back, no scan sees a change: the history goes on expecting what
      it wrote, neither this call nor the next accepts the file, and a write
      conflicts until the file is read through the history or changes again. */
  lemma {:induction false} PutBackStaysOutOfStep(
    s: State, content: Bytes, age: Age, env: Env, next: Operation, more: Bytes)
    requires Good(s) && Holds(s.log, s.site) && s.site.file.Some? && s.site.file.value.bytes != content
    requires !env.readFails && !env.commitFails
    ensures var written := Step(s, Mutate(Write, content, env));
            && ValidLog(written.log)
            && var late := Step(written, OutsideWrite(s.site.Content(), age));
               var snapshot := SnapshotOf(s.site.Content());
               var t := Ended(late, snapshot, snapshot, env).0;
               && late.site.Content() == s.site.Content()
               && t == late && !Holds(t.log, t.site)
               && Begun(t, Some(s.site.Content()), env) == t
               && Mutated(t.log, t.site, next, more, env).result == Err(Conflict)
  {
    hide Between, ValidTree, RedoChain, ValidMoves, ValidHint, MovesKnown;
    StepKeepsGood(s, Mutate(Write, content, env));
  }
}
