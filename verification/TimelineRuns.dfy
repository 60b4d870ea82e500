/** What holds of a file's history over every run: any mix of operations with
    writes by other programs and passing time in between. */
module TimelineRuns {
  import opened Base
  import opened Splices
  import opened Timelines

  datatype State = State(log: Log, site: Site)

  datatype Event =
    | Mutate(operation: Operation, content: Bytes, env: Env)
    | External(before: Option<Snapshot>, after: Option<Snapshot>, env: Env)
    | Acknowledge(env: Env)
    | AcknowledgeSeen(digest: Bytes, env: Env)
    | Undo(env: Env)
    | Redo(env: Env)
    | Restore(target: nat, env: Env)
      /** Another program writes or removes the file. */
    | OutsideWrite(bytes: Option<Bytes>, age: Age)
      /** Time passes, and other files' changes advance the counter. */
    | Tick(elapsed: nat, changes: nat)
  {
    predicate Allowed() {
      External? ==> Honest(before) && Honest(after)
    }

    /** The step is one of this history's own operations. */
    predicate Own() {
      !OutsideWrite? && !Tick?
    }
  }

  function From<T>(o: Outcome<T>): State {
    State(o.log, o.site)
  }

  function Step(s: State, e: Event): State
    requires ValidLog(s.log)
  {
    match e
    case Mutate(operation, content, env) => From(Mutated(s.log, s.site, operation, content, env))
    case External(before, after, env) => From(Recorded(s.log, s.site, before, after, env))
    case Acknowledge(env) => From(Acknowledged(s.log, s.site, env))
    case AcknowledgeSeen(digest, env) => From(AcknowledgedSeen(s.log, s.site, digest, env))
    case Undo(env) => From(Undone(s.log, s.site, env))
    case Redo(env) => From(Redone(s.log, s.site, env))
    case Restore(target, env) => From(RestoredTo(s.log, s.site, target, env))
    case OutsideWrite(bytes, age) => s.(site := s.site.Committed(bytes, age))
    case Tick(elapsed, changes) => s.(site := s.site.(now := s.site.now + elapsed, seqno := s.site.seqno + changes))
  }

  // ---------- the invariant ----------

  ghost predicate ValidMoves(s: State) {
    && (forall k | 0 <= k < |s.log.moves| :: s.log.moves[k].seqno <= s.site.seqno)
    && (forall j, k | 0 <= j < k < |s.log.moves| :: s.log.moves[j].seqno < s.log.moves[k].seqno)
    && (s.log.moves == [] ==> s.log.current == 0)
  }

  /** While the hint holds, the file is as the history left it. */
  ghost predicate ValidHint(s: State)
    requires ValidLog(s.log)
  {
    s.log.seen.Some? ==>
      && s.log.seen.value.noted <= s.site.now
      && (s.log.seen.value.Still(s.site.file) ==> Holds(s.log, s.site))
  }

  ghost predicate Good(s: State) {
    && ValidLog(s.log)
    && ValidMoves(s)
    && ValidHint(s)
  }

  /** A new timeline is good, whatever the file. */
  lemma NewTimelineGood(site: Site)
    ensures Good(State(Log([], 0, [], None, []), site))
  {
  }

  lemma StepExtends(s: State, e: Event)
    requires Good(s) && e.Allowed()
    ensures Extends(s.log, Step(s, e).log)
  {
    hide Mutated, Recorded, Acknowledged, Undone, Redone, RestoredTo;
    match e
    case Mutate(operation, content, env) => MutateExtends(s.log, s.site, operation, content, env);
    case External(before, after, env) => RecordExtends(s.log, s.site, before, after, env);
    case Acknowledge(env) => AcknowledgeExtends(s.log, s.site, env);
    case AcknowledgeSeen(digest, env) => AcknowledgeExtends(s.log, s.site, env);
    case Undo(env) => UndoExtends(s.log, s.site, env);
    case Redo(env) => RedoExtends(s.log, s.site, env);
    case Restore(target, env) => RestoreToExtends(s.log, s.site, target, env);
    case OutsideWrite(bytes, age) =>
    case Tick(elapsed, changes) =>
  }

  /** A step either leaves the cursor and the moves alone, or logs one move. */
  lemma StepMovesOnce(s: State, e: Event)
    requires Good(s) && e.Allowed()
    ensures var t := Step(s, e);
            || (t.log.moves == s.log.moves && t.log.current == s.log.current && t.site.seqno >= s.site.seqno)
            || (&& t.log.moves == s.log.moves + [Move(s.site.seqno + 1, s.log.current)]
                && t.site.seqno == s.site.seqno + 1
                && Known(t.log.changes, s.log.current))
  {
    hide Between, LeftOff, Walk, FirstClosed, ValidTree, RedoChain, At;
  }

  lemma StepKeepsMoves(s: State, e: Event)
    requires Good(s) && e.Allowed()
    ensures ValidMoves(Step(s, e))
  {
    hide Step, At, ValidTree;
    StepExtends(s, e);
    StepMovesOnce(s, e);
  }

  lemma StepKeepsHint(s: State, e: Event)
    requires Good(s) && e.Allowed()
    ensures ValidLog(Step(s, e).log) && ValidHint(Step(s, e))
  {
    StepExtends(s, e);
    hide Between, LeftOff, Walk, FirstClosed, ValidTree, RedoChain, MovesKnown;
  }

  lemma StepKeepsGood(s: State, e: Event)
    requires Good(s) && e.Allowed()
    ensures Good(Step(s, e))
  {
    StepExtends(s, e);
    StepKeepsMoves(s, e);
    StepKeepsHint(s, e);
  }

  function Run(s: State, es: seq<Event>): (t: State)
    requires Good(s) && forall e | e in es :: e.Allowed()
    ensures Good(t)
    decreases |es|
  {
    if es == [] then s
    else
      StepKeepsGood(s, es[0]);
      Run(Step(s, es[0]), es[1..])
  }

  // ---------- restoring ----------

  /** A restore succeeds exactly when the revision is known, the file is as the
      history left it, and every edge of the tree path is open. Then the file
      has that revision's content; a failed restore changes nothing. */
  lemma RestoreSucceedsExactly(s: State, target: nat, env: Env)
    requires Good(s) && !env.readFails && !env.commitFails
    ensures var o, tree := Restored(s.log, s.site, target, env), s.log.changes;
            && (o.result.Ok? <==>
                  && target <= |tree|
                  && Holds(s.log, s.site)
                  && forall id | 0 < id <= |tree| && OnPath(tree, s.log.current, target, id) :: Open(tree, id))
            && (o.result.Ok? ==>
                  && o.log.current == target
                  && o.log.changes == tree
                  && (tree != [] ==> o.site.Content() == DigestOf(At(tree, target))))
            && (o.result.Err? ==> o.log == s.log && o.site == s.site)
  {
    if target <= |s.log.changes| {
      PathIsOpen(s.log.changes, s.log.current, target);
    }
  }

  lemma PathIsOpen(tree: Tree, a: nat, b: nat)
    requires ValidTree(tree) && a <= |tree| && b <= |tree|
    ensures FirstClosed(tree, Walk(tree, a, b).0 + Walk(tree, a, b).1).None? <==>
            forall id | 0 < id <= |tree| && OnPath(tree, a, b, id) :: Open(tree, id)
  {
    var w := Walk(tree, a, b);
    var _ := WalkIsTreePath(tree, a, b);
    NoneClosed(tree, w.0 + w.1);
    assert forall id: nat :: id in w.0 + w.1 <==> OnPath(tree, a, b, id);
  }

  /** Whatever fails, including the disk, a failed restore changes nothing. */
  lemma FailedRestoreChangesNothing(s: State, target: nat, env: Env)
    requires Good(s) && Restored(s.log, s.site, target, env).result.Err?
    ensures From(Restored(s.log, s.site, target, env)) == s
  {
  }

  // ---------- nothing is lost ----------

  /** Content this history replaces or removes is the recorded content of the
      revision the cursor was at. */
  lemma StepLosesNothing(s: State, e: Event)
    requires Good(s) && e.Allowed() && e.Own()
    requires Step(s, e).site.Content() != s.site.Content()
    ensures Known(Step(s, e).log.changes, s.log.current)
    ensures At(Step(s, e).log.changes, s.log.current) == StampOf(s.site.Content())
  {
    hide Mutated, Recorded, Acknowledged, Restored, ValidTree, RedoChain, ValidMoves, ValidHint, At;
    match e
    case Mutate(operation, content, env) => MutateLosesNothing(s.log, s.site, operation, content, env);
    case External(before, after, env) => OnlyTheLog(s.log, s.site, before, after, env);
    case Acknowledge(env) => OnlyTheLog(s.log, s.site, None, None, env);
    case AcknowledgeSeen(digest, env) => OnlyTheLog(s.log, s.site, None, None, env);
    case Undo(env) => RestoreLosesNothing(s.log, s.site, Parent(s.log.changes, s.log.current), env);
    case Redo(env) => RestoreLosesNothing(s.log, s.site, s.log.redo[|s.log.redo| - 1], env);
    case Restore(target, env) => RestoreLosesNothing(s.log, s.site, target, env);
  }

  lemma MutateLosesNothing(log: Log, site: Site, operation: Operation, content: Bytes, env: Env)
    requires ValidLog(log) && Mutated(log, site, operation, content, env).site.Content() != site.Content()
    ensures var after := Mutated(log, site, operation, content, env).log;
            Known(after.changes, log.current) && At(after.changes, log.current) == StampOf(site.Content())
  {
    hide Between, ValidTree, RedoChain, MovesKnown;
    assert log.changes == [] ==> log.current == 0;
  }

  lemma RestoreLosesNothing(log: Log, site: Site, target: nat, env: Env)
    requires ValidLog(log) && Restored(log, site, target, env).site.Content() != site.Content()
    ensures Restored(log, site, target, env).log.changes == log.changes
    ensures Known(log.changes, log.current) && At(log.changes, log.current) == StampOf(site.Content())
  {
    hide Walk, FirstClosed, ValidTree, RedoChain, MovesKnown;
  }

  /** Recording an edit and accepting one leave the file alone. */
  lemma OnlyTheLog(log: Log, site: Site, before: Option<Snapshot>, after: Option<Snapshot>, env: Env)
    requires ValidLog(log)
    ensures Recorded(log, site, before, after, env).site.Content() == site.Content()
    ensures Acknowledged(log, site, env).site.Content() == site.Content()
  {
    hide ExternalChange, At, ValidTree, RedoChain, MovesKnown;
  }

  lemma {:induction false} RunKeepsRevisions(s: State, es: seq<Event>)
    requires Good(s) && forall e | e in es :: e.Allowed()
    ensures s.log.changes <= Run(s, es).log.changes
    ensures forall id | Known(s.log.changes, id) :: At(Run(s, es).log.changes, id) == At(s.log.changes, id)
    decreases |es|
  {
    if es != [] {
      StepKeepsGood(s, es[0]);
      StepExtends(s, es[0]);
      RunKeepsRevisions(Step(s, es[0]), es[1..]);
    }
  }

  /** Over any run, whatever content an operation replaced or removed, the
      history still holds it at the end, as the revision the cursor was at. */
  lemma {:induction false} RunLosesNothing(s: State, es: seq<Event>, k: nat)
    requires Good(s) && forall e | e in es :: e.Allowed()
    requires k < |es| && es[k].Own()
    ensures var was := Run(s, es[..k]);
            Run(s, es[..k + 1]).site.Content() != was.site.Content() ==>
              && Known(Run(s, es).log.changes, was.log.current)
              && At(Run(s, es).log.changes, was.log.current) == StampOf(was.site.Content())
    decreases k
  {
    StepKeepsGood(s, es[0]);
    if k == 0 {
      assert Run(s, es[..1]) == Step(s, es[0]) by { assert es[..1][1..] == []; }
      if Step(s, es[0]).site.Content() != s.site.Content() {
        StepLosesNothing(s, es[0]);
        RunKeepsRevisions(Step(s, es[0]), es[1..]);
      }
    } else {
      RunLosesNothing(Step(s, es[0]), es[1..], k - 1);
      assert es[1..][..k - 1] == es[..k][1..];
      assert es[1..][..k] == es[..k + 1][1..];
    }
  }

  // ---------- barriers ----------

  lemma {:induction false} AncKept(tree: Tree, longer: Tree, a: nat, id: nat)
    requires ValidTree(tree) && ValidTree(longer) && tree <= longer && id <= |tree|
    ensures Anc(longer, a, id) == Anc(tree, a, id)
    decreases id
  {
    if id > 0 {
      assert ValidChange(tree, id - 1);
      AncKept(tree, longer, a, Parent(tree, id));
    }
  }

  /** Once the cursor is above a closed edge, an outside edit for one, no step
      takes it back below. */
  lemma StepStaysAbove(s: State, e: Event, b: nat)
    requires Good(s) && e.Allowed()
    requires 0 < b <= |s.log.changes| && !Open(s.log.changes, b) && Anc(s.log.changes, b, s.log.current)
    ensures Good(Step(s, e)) && Anc(Step(s, e).log.changes, b, Step(s, e).log.current)
    ensures !Open(Step(s, e).log.changes, b)
  {
    StepKeepsGood(s, e);
    StepExtends(s, e);
    var t := Step(s, e);
    AncKept(s.log.changes, t.log.changes, b, s.log.current);
    if e.Undo? || e.Redo? || e.Restore? {
      if t.log.current != s.log.current {
        RestoreSucceedsExactly(s, t.log.current, e.env);
      }
    }
  }

  /** Over any run, undo, redo and restore never discard an outside edit: the
      cursor never gets back below the edge that stands for it. */
  lemma {:induction false} RunStaysAbove(s: State, es: seq<Event>, b: nat)
    requires Good(s) && forall e | e in es :: e.Allowed()
    requires 0 < b <= |s.log.changes| && !Open(s.log.changes, b) && Anc(s.log.changes, b, s.log.current)
    ensures Anc(Run(s, es).log.changes, b, Run(s, es).log.current)
    decreases |es|
  {
    if es != [] {
      StepKeepsGood(s, es[0]);
      StepExtends(s, es[0]);
      StepStaysAbove(s, es[0], b);
      RunStaysAbove(Step(s, es[0]), es[1..], b);
    }
  }

  // ---------- undo and redo ----------

  /** Equal in everything undo and redo put back. */
  predicate SamePlace(s: State, t: State) {
    && s.log.changes == t.log.changes
    && s.log.current == t.log.current
    && s.log.redo == t.log.redo
    && s.site.Content() == t.site.Content()
  }

  /** With a disk that works, redo succeeds exactly when there is something to
      redo and the file is as the history left it. No barrier and no
      unrestorable edge can stand in its way. */
  lemma RedoSucceedsExactly(s: State, env: Env)
    requires Good(s) && !env.readFails && !env.commitFails
    ensures var o := Redone(s.log, s.site, env);
            && (o.result.Ok? <==> s.log.redo != [] && Holds(s.log, s.site))
            && (o.result.Ok? ==>
                  && o.log.changes == s.log.changes
                  && o.log.current == s.log.redo[|s.log.redo| - 1]
                  && o.log.redo == s.log.redo[..|s.log.redo| - 1]
                  && Known(s.log.changes, o.log.current)
                  && o.site.Content() == DigestOf(At(s.log.changes, o.log.current)))
  {
    if s.log.redo != [] {
      assert RedoEntry(s.log, |s.log.redo| - 1);
      var top := s.log.redo[|s.log.redo| - 1];
      OneEdge(s.log.changes, top);
      assert [] + [top] == [top];
    }
  }

  /** With a disk that works, undo succeeds exactly when there is something to
      undo, the file is as the history left it, and the edge is open. */
  lemma UndoSucceedsExactly(s: State, env: Env)
    requires Good(s) && !env.readFails && !env.commitFails
    ensures var o, at := Undone(s.log, s.site, env), s.log.current;
            && (o.result.Ok? <==> at > 0 && Holds(s.log, s.site) && Open(s.log.changes, at))
            && (o.result.Ok? ==>
                  && o.log.changes == s.log.changes
                  && o.log.current == Parent(s.log.changes, at) < at
                  && o.log.redo == s.log.redo + [at]
                  && o.site.Content() == DigestOf(At(s.log.changes, o.log.current)))
  {
    if s.log.current > 0 {
      OneEdge(s.log.changes, s.log.current);
      assert [s.log.current] + [] == [s.log.current];
    }
  }

  /** Redo takes back an undo. */
  lemma RedoTakesBack(s: State, t: State, undo: Env, redo: Env)
    requires Good(s) && Undone(s.log, s.site, undo).result.Ok?
    requires Good(t) && SamePlace(t, Step(s, Undo(undo)))
    requires !redo.readFails && !redo.commitFails
    ensures SamePlace(Step(t, Redo(redo)), s)
  {
    OneEdge(s.log.changes, s.log.current);
    RedoSucceedsExactly(t, redo);
  }

  function Undos(s: State, envs: seq<Env>): (t: State)
    requires Good(s)
    ensures Good(t)
    decreases |envs|
  {
    if envs == [] then s
    else
      StepKeepsGood(s, Undo(envs[0]));
      Undos(Step(s, Undo(envs[0])), envs[1..])
  }

  function Redos(s: State, envs: seq<Env>): (t: State)
    requires Good(s)
    ensures Good(t)
    decreases |envs|
  {
    if envs == [] then s
    else
      StepKeepsGood(s, Redo(envs[0]));
      Redos(Step(s, Redo(envs[0])), envs[1..])
  }

  predicate AllUndone(s: State, envs: seq<Env>)
    requires Good(s)
    decreases |envs|
  {
    if envs == [] then true
    else
      StepKeepsGood(s, Undo(envs[0]));
      Undone(s.log, s.site, envs[0]).result.Ok? && AllUndone(Step(s, Undo(envs[0])), envs[1..])
  }

  lemma {:induction false} RedosEndWithOne(s: State, envs: seq<Env>)
    requires Good(s) && envs != []
    ensures var last := |envs| - 1;
            Redos(s, envs) == Step(Redos(s, envs[..last]), Redo(envs[last]))
    decreases |envs|
  {
    hide Step, ValidMoves, ValidHint, ValidTree, RedoChain;
    var last := |envs| - 1;
    StepKeepsGood(s, Redo(envs[0]));
    if last > 0 {
      RedosEndWithOne(Step(s, Redo(envs[0])), envs[1..]);
      assert envs[1..][..last - 1] == envs[..last][1..];
    } else {
      assert envs[1..] == [];
    }
  }

  /** Any number of undos followed by as many redos puts the cursor, the redo
      stack and the file's content back exactly. */
  lemma {:induction false} RedosTakeBackUndos(s: State, undos: seq<Env>, redos: seq<Env>)
    requires Good(s) && AllUndone(s, undos) && |redos| == |undos|
    requires forall env | env in redos :: !env.readFails && !env.commitFails
    ensures SamePlace(Redos(Undos(s, undos), redos), s)
    decreases |undos|
  {
    hide Step, ValidMoves, ValidHint, ValidTree, RedoChain, Restored;
    if undos != [] {
      StepKeepsGood(s, Undo(undos[0]));
      var below, last := Step(s, Undo(undos[0])), |redos| - 1;
      RedosTakeBackUndos(below, undos[1..], redos[..last]);
      RedosEndWithOne(Undos(s, undos), redos);
      RedoTakesBack(s, Redos(Undos(s, undos), redos[..last]), undos[0], redos[last]);
    }
  }

  // ---------- the disk hint ----------

  /** In every reachable state, acknowledging by the hint does what reading the
      file would have done, but for refreshing the hint itself. */
  lemma HintAgreesWithReading(s: State, env: Env)
    requires Good(s) && !env.readFails
    ensures var hinted, read := Acknowledged(s.log, s.site, env), AcknowledgedByReading(s.log, s.site, env);
            && hinted.result == read.result
            && hinted.site == read.site
            && hinted.log.(seen := None) == read.log.(seen := None)
  {
  }

  // ---------- external records ----------

  /** A recorded external change can be undone exactly when both sides are
      absent or known, the earlier one perhaps by replay; and then undoing it
      brings back the content of the revision it was recorded on, even when
      the caller's earlier snapshot predates this history's own changes. */
  lemma ExternalCanBeUndone(s: State, before: Option<Snapshot>, after: Option<Snapshot>, env: Env)
    requires Good(s) && Honest(before) && Honest(after) && !env.readFails && !env.commitFails
    requires s.site.Content() == SnapshotDigest(after)
    ensures var t := Step(s, Event.External(before, after, env));
            var o := (StepKeepsGood(s, Event.External(before, after, env)); Undone(t.log, t.site, env));
            var (stamp, bytes) := LeftOff(s.log, before);
            && (o.result.Ok? <==> (stamp.None? || bytes.Some?) && (after.None? || after.value.content.Some?))
            && (o.result.Ok? ==>
                  && o.log.current == s.log.current
                  && o.site.Content() == DigestOf(stamp)
                  && (s.log.changes != [] ==> stamp == At(s.log.changes, s.log.current)))
  {
    hide Between, Replayed, Undone;
    var e := Event.External(before, after, env);
    StepKeepsGood(s, e);
    StepExtends(s, e);
    var t := Step(s, e);
    assert t.log.changes[t.log.current - 1] == ExternalChange(s.log, s.site.seqno + 1, before, after);
    UndoSucceedsExactly(t, env);
    assert ValidChange(t.log.changes, t.log.current - 1);
  }

  /** Replay finds content only when it is the current revision's. */
  lemma ReplayIsCurrent(log: Log, start: Option<Snapshot>)
    requires ValidLog(log) && Replayed(log, start).Some?
    ensures log.changes != [] && At(log.changes, log.current) == StampOf(Replayed(log, start))
  {
  }

  // ---------- marks ----------

  /** `t` comes after `s`: the moves logged since are newer than `s`, and the
      first of them left from where the cursor was in `s`. */
  ghost predicate MovesSince(s: State, t: State) {
    && s.log.moves <= t.log.moves
    && s.site.seqno <= t.site.seqno
    && (forall k | |s.log.moves| <= k < |t.log.moves| :: s.site.seqno < t.log.moves[k].seqno)
    && (if |t.log.moves| == |s.log.moves| then t.log.current == s.log.current
        else t.log.moves[|s.log.moves|].from == s.log.current)
  }

  lemma StepMoves(s: State, e: Event)
    requires Good(s) && e.Allowed()
    ensures MovesSince(s, Step(s, e))
  {
    hide Step, ValidTree, RedoChain;
    StepMovesOnce(s, e);
  }

  lemma {:induction false} RunMoves(s: State, es: seq<Event>)
    requires Good(s) && forall e | e in es :: e.Allowed()
    ensures MovesSince(s, Run(s, es))
    decreases |es|
  {
    if es != [] {
      StepKeepsGood(s, es[0]);
      StepMoves(s, es[0]);
      RunMoves(Step(s, es[0]), es[1..]);
    }
  }

  lemma {:induction false} SkipOld(moves: seq<Move>, skip: nat, mark: nat)
    requires skip <= |moves|
    requires forall k | 0 <= k < skip :: moves[k].seqno <= mark
    requires skip < |moves| ==> mark < moves[skip].seqno
    ensures FirstAfter(moves, mark) == if skip < |moves| then Some(moves[skip]) else None
  {
    if skip > 0 {
      SkipOld(moves[1..], skip - 1, mark);
    }
  }

  /** The snapshot holds all of the content. */
  predicate Whole(s: Option<Snapshot>, content: Option<Bytes>) {
    if content.None? then s == None else s == Some(Snapshot(|content.value|, content.value, content))
  }

  /** Whatever ran since a mark was taken in state `s`, the file is reported as
      moved exactly when its cursor has ended elsewhere and the file is as the
      history left it; the report pairs the content the file's history had at
      the mark, kept when it can be rebuilt, with the content now. */
  lemma MarkPinsThePast(s: State, es: seq<Event>)
    requires Good(s) && forall e | e in es :: e.Allowed()
    ensures var t := Run(s, es);
            var moved := MovedAfter(t.log, t.site, s.site.seqno, false);
            && (moved.Some? <==> t.log.current != s.log.current && Holds(t.log, t.site))
            && (moved.Some? ==>
                  && Known(t.log.changes, s.log.current)
                  && moved.value.revision == t.log.current
                  && Whole(moved.value.after, t.site.Content())
                  && SnapshotDigest(moved.value.before) == DigestOf(At(t.log.changes, s.log.current))
                  && (Rebuilt(t.log, t.site, s.log.current, false).Ok? ==>
                        Whole(moved.value.before, DigestOf(At(t.log.changes, s.log.current))))
                  && (moved.value.before.Some? && moved.value.before.value.content.Some? ==>
                        Whole(moved.value.before, DigestOf(At(t.log.changes, s.log.current)))))
  {
    var t := Run(s, es);
    RunMoves(s, es);
    SkipOld(t.log.moves, |s.log.moves|, s.site.seqno);
  }
}
