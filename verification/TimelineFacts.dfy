/** What each operation on a file does, said without the functions that do it. */
module TimelineFacts {
  import opened Base
  import opened Splices
  import opened Timelines
  import opened TimelineRuns

  /** The hint noted of a file: its size, its time and when it was looked at. */
  predicate Notes(seen: Option<Hint>, site: Site) {
    if site.file.None? then seen == None
    else seen == Some(Hint(|site.file.value.bytes|, site.file.value.modified, site.now))
  }

  // ---------- writing ----------

  /** A write leaves the content given, an append the old content and then the
      content given, a removal nothing. */
  predicate Leaves(operation: Operation, was: Option<Bytes>, content: Bytes, now: Option<Bytes>) {
    && (operation == Write ==> now == Some(content))
    && (operation == Append ==> now == Some((if was.Some? then was.value else "") + content))
    && (operation == Remove ==> now == None)
  }

  /** A write, an append or a removal is done exactly when the disk works, the file is
      as the history left it, and one to be removed is there. Otherwise nothing
      changes. */
  lemma MutationExactly(s: State, operation: Operation, content: Bytes, env: Env)
    requires Good(s)
    ensures var o := Mutated(s.log, s.site, operation, content, env);
            var expected := s.log.changes == [] || At(s.log.changes, s.log.current) == StampOf(s.site.Content());
            && (o.result.Ok? <==>
                  && !env.readFails && !env.commitFails && expected
                  && operation in {Write, Append, Remove}
                  && (operation == Remove ==> s.site.file.Some?))
            && (o.result.Err? ==> o.log == s.log && o.site == s.site)
  {
    hide Between, ValidMoves, ValidHint, RedoChain, MovesKnown, ValidTree;
  }

  /** The file then holds what it should, as one new revision on top of the cursor, which
      holds the same, and nothing is left to redo. */
  lemma MutationLeaves(s: State, operation: Operation, content: Bytes, env: Env)
    requires Good(s) && Mutated(s.log, s.site, operation, content, env).result.Ok?
    ensures var o := Mutated(s.log, s.site, operation, content, env);
            && Leaves(operation, s.site.Content(), content, o.site.Content())
            && (o.site.file.Some? ==> o.site.file.value.modified == s.site.now - env.age)
            && |o.log.changes| == |s.log.changes| + 1 && s.log.changes <= o.log.changes
            && o.result == Ok(o.log.current) && o.log.current == |o.log.changes|
            && o.log.changes[o.log.current - 1].operation == operation
            && Parent(o.log.changes, o.log.current) == s.log.current
            && Open(o.log.changes, o.log.current)
            && At(o.log.changes, o.log.current) == StampOf(o.site.Content())
            && At(o.log.changes, s.log.current) == StampOf(s.site.Content())
            && o.log.redo == [] && Notes(o.log.seen, o.site)
  {
    hide Between, ValidMoves, ValidHint, RedoChain, MovesKnown, ValidTree;
    assert s.log.changes == [] ==> s.log.current == 0;
  }

  /** Why a write, an append or a removal is refused. */
  lemma MutationRefused(s: State, operation: Operation, content: Bytes, env: Env)
    requires Good(s)
    ensures var r := Mutated(s.log, s.site, operation, content, env).result;
            var expected := s.log.changes == [] || At(s.log.changes, s.log.current) == StampOf(s.site.Content());
            && (r == Err(Conflict) <==> !env.readFails && !expected)
            && (r == Err(NotFound) <==> !env.readFails && expected && operation == Remove && s.site.file.None?)
            && (r == Err(Unsupported) <==> !env.readFails && expected && operation in {Operation.External, Outside})
            && (r == Err(Io) ==> env.readFails || env.commitFails)
            && (r.Err? ==> r.error in {Conflict, NotFound, Unsupported, Io})
  {
    hide Between, ValidMoves, ValidHint, RedoChain, MovesKnown, ValidTree;
  }

  // ---------- restoring ----------

  /** Some edge on the path between two revisions is of this kind. */
  ghost predicate OnTheWay(tree: Tree, a: nat, b: nat, outside: bool)
    requires ValidTree(tree) && a <= |tree| && b <= |tree|
  {
    exists id | 0 < id <= |tree| :: OnPath(tree, a, b, id) && ClosedAs(tree, id, outside)
  }

  /** The edge is closed, as an outside edit or as one whose contents are not known. */
  predicate ClosedAs(tree: Tree, id: nat, outside: bool)
    requires 0 < id <= |tree|
  {
    if outside then tree[id - 1].operation == Outside else tree[id - 1].operation != Outside && !tree[id - 1].restorable
  }

  /** Why a restore is refused. */
  lemma RestoreRefused(s: State, target: nat, env: Env)
    requires Good(s)
    ensures var r, tree := Restored(s.log, s.site, target, env).result, s.log.changes;
            && (r == Err(UnknownRevision(target)) <==> target > |tree|)
            && (r == Err(Conflict) <==>
                  && target <= |tree| && !env.readFails
                  && tree != [] && At(tree, s.log.current) != StampOf(s.site.Content()))
            && (r == Err(ChangedOutside) ==> target <= |tree| && OnTheWay(tree, s.log.current, target, true))
            && (r == Err(NotRestorable) ==> target <= |tree| && OnTheWay(tree, s.log.current, target, false))
            && (r.Err? ==> r.error in {UnknownRevision(target), Conflict, ChangedOutside, NotRestorable, Io})
            && (r == Err(Io) ==> env.readFails || env.commitFails)
  {
    hide ValidMoves, ValidHint, RedoChain, MovesKnown, FirstClosed, Walk, At;
    if target <= |s.log.changes| {
      var tree := s.log.changes;
      var w := Walk(tree, s.log.current, target);
      FirstClosedIs(tree, w.0 + w.1);
      var closed := FirstClosed(tree, w.0 + w.1);
      if closed.Some? {
        var id := ClosedOne(tree, w.0 + w.1);
        var _ := WalkIsTreePath(tree, s.log.current, target);
        assert OnPath(tree, s.log.current, target, id);
        assert ClosedAs(tree, id, closed == Some(ChangedOutside));
      }
    }
  }

  lemma {:induction false} FirstClosedIs(tree: Tree, ids: seq<nat>)
    requires forall k | 0 <= k < |ids| :: 0 < ids[k] <= |tree|
    ensures FirstClosed(tree, ids) in {None, Some(ChangedOutside), Some(NotRestorable)}
  {
    if ids != [] {
      FirstClosedIs(tree, ids[1..]);
    }
  }

  lemma {:induction false} ClosedOne(tree: Tree, ids: seq<nat>) returns (id: nat)
    requires forall k | 0 <= k < |ids| :: 0 < ids[k] <= |tree|
    requires FirstClosed(tree, ids).Some?
    ensures id in ids && 0 < id <= |tree|
    ensures ClosedAs(tree, id, FirstClosed(tree, ids) == Some(ChangedOutside))
  {
    id := ids[0];
    if Open(tree, ids[0]) {
      id := ClosedOne(tree, ids[1..]);
    }
  }

  /** Undo is refused for want of a change only before the first, redo only when no undo
      is left to take back; a refusal changes nothing. A restore that a caller asks for
      leaves nothing to redo. */
  lemma UndoRefused(s: State, target: nat, env: Env)
    requires Good(s)
    ensures var undo, redo := Undone(s.log, s.site, env), Redone(s.log, s.site, env);
            var restore := RestoredTo(s.log, s.site, target, env);
            && (undo.result == Err(NoUndo) <==> s.log.current == 0)
            && (redo.result == Err(NoRedo) <==> s.log.redo == [])
            && (undo.result.Err? ==> From(undo) == s)
            && (redo.result.Err? ==> From(redo) == s)
            && (restore.result.Err? ==> From(restore) == s)
            && (restore.result.Ok? ==> restore.log.redo == [] && restore.log.current == target)
  {
    hide ValidMoves, ValidHint, RedoChain, MovesKnown, At, Restored;
    if s.log.current > 0 {
      assert ValidChange(s.log.changes, s.log.current - 1);
      RestoreRefused(s, Parent(s.log.changes, s.log.current), env);
      RestoreFate(s, Parent(s.log.changes, s.log.current), env);
    }
    if s.log.redo != [] {
      RestoreRefused(s, s.log.redo[|s.log.redo| - 1], env);
      RestoreFate(s, s.log.redo[|s.log.redo| - 1], env);
    }
    RestoreFate(s, target, env);
  }

  /** A restore moves the cursor, which is logged, and writes the file if the cursor was
      elsewhere. Nothing else of the history changes, and nothing at all when it fails. */
  lemma RestoreFate(s: State, target: nat, env: Env)
    requires Good(s)
    ensures var o := Restored(s.log, s.site, target, env);
            && (o.result.Err? ==> From(o) == s)
            && (o.result.Ok? ==> o.result == Ok(target) && o.log.current == target && o.log.changes == s.log.changes
                                 && o.log.redo == s.log.redo && o.log.seen == s.log.seen)
            && (o.result.Ok? && target == s.log.current ==> From(o) == s)
            && (o.result.Ok? && target != s.log.current ==>
                  && o.log.moves == s.log.moves + [Move(s.site.seqno + 1, s.log.current)]
                  && o.site.seqno == s.site.seqno + 1 && o.site.now == s.site.now
                  && (o.site.file.Some? ==> o.site.file.value.modified == s.site.now - env.age))
  {
    hide ValidMoves, ValidHint, RedoChain, MovesKnown, ValidTree, Rebuilt;
  }

  // ---------- accepting outside edits ----------

  /** An edit that is accepted becomes one new revision with the content found, on an
      edge that neither undo nor restore may cross. */
  lemma AcceptedEditIsClosed(s: State, env: Env)
    requires Good(s) && s.log.changes != [] && !env.readFails
    requires At(s.log.changes, s.log.current) != StampOf(s.site.Content())
    ensures var t := Step(s, Acknowledge(env));
            && Good(t) && s.log.changes <= t.log.changes && |t.log.changes| == |s.log.changes| + 1
            && t.log.current == |t.log.changes|
            && t.log.changes[t.log.current - 1].operation == Outside
            && !Open(t.log.changes, t.log.current)
            && Parent(t.log.changes, t.log.current) == s.log.current
            && At(t.log.changes, t.log.current) == StampOf(s.site.Content())
            && At(t.log.changes, s.log.current) == At(s.log.changes, s.log.current)
            && t.site == s.site.(seqno := t.site.seqno) && t.log.redo == [] && Notes(t.log.seen, s.site)
  {
    hide ValidMoves, ValidTree, RedoChain, MovesKnown;
    StepKeepsGood(s, Acknowledge(env));
    StepExtends(s, Acknowledge(env));
    assert ValidHint(s);
  }

  /** Over every run after it was accepted, the edit stays: the cursor is never below
      its revision, a restore to a revision that does not have it is refused, and an
      undo at its revision says that the file was changed outside. */
  lemma AcceptedEditStays(s: State, env: Env, es: seq<Event>, target: nat, later: Env)
    requires Good(s) && s.log.changes != [] && !env.readFails && forall e | e in es :: e.Allowed()
    requires At(s.log.changes, s.log.current) != StampOf(s.site.Content())
    ensures Good(Step(s, Acknowledge(env)))
    ensures var t := Step(s, Acknowledge(env));
            var u, b := Run(t, es), t.log.current;
            && Anc(u.log.changes, b, u.log.current)
            && (target <= |u.log.changes| && !Anc(u.log.changes, b, target) ==>
                  Restored(u.log, u.site, target, later).result.Err?)
            && (u.log.current == b && !later.readFails && Holds(u.log, u.site) ==>
                  Undone(u.log, u.site, later).result == Err(ChangedOutside))
  {
    hide Mutated, Recorded, Acknowledged, Restored, Run, ValidMoves, ValidHint, RedoChain, MovesKnown;
    AcceptedEditIsClosed(s, env);
    var t := Step(s, Acknowledge(env));
    var b := t.log.current;
    hide Step;
    assert Anc(t.log.changes, b, b);
    RunStaysAbove(t, es, b);
    RunKeepsRevisions(t, es);
    var u := Run(t, es);
    assert u.log.changes[b - 1] == t.log.changes[b - 1];
    if target <= |u.log.changes| && !Anc(u.log.changes, b, target) {
      ClosedEdgeRefuses(u, target, b, later);
    }
    assert !Open(u.log.changes, b) && u.log.changes[b - 1].operation == Outside;
    if u.log.current == b && !later.readFails && Holds(u.log, u.site) {
      UndoAtBarrier(u, later);
    }
  }

  lemma ClosedEdgeRefuses(s: State, target: nat, b: nat, env: Env)
    requires Good(s) && target <= |s.log.changes| && 0 < b <= |s.log.changes|
    requires !Open(s.log.changes, b) && OnPath(s.log.changes, s.log.current, target, b)
    ensures Restored(s.log, s.site, target, env).result.Err?
  {
    hide ValidMoves, ValidHint, RedoChain, MovesKnown, Walk, FirstClosed, At, Open, OnPath;
    PathIsOpen(s.log.changes, s.log.current, target);
  }

  lemma UndoAtBarrier(s: State, env: Env)
    requires Good(s) && s.log.current > 0 && s.log.changes[s.log.current - 1].operation == Outside
    requires !env.readFails && Holds(s.log, s.site)
    ensures Undone(s.log, s.site, env).result == Err(ChangedOutside)
  {
    OneEdge(s.log.changes, s.log.current);
    assert [s.log.current] + [] == [s.log.current];
  }

  /** Accepting changes nothing when there is no history or the file is as expected,
      but for the hint, and fails only when the file cannot be read. */
  lemma AcceptingNothing(s: State, env: Env)
    requires Good(s)
    ensures var o := Acknowledged(s.log, s.site, env);
            && (o.result.Err? ==> env.readFails && o.result == Err(Io) && o.log == s.log)
            && (!env.readFails ==> o.result == Ok(()))
            && (s.log.changes == [] || At(s.log.changes, s.log.current) == StampOf(s.site.Content()) ==>
                  o.log.(seen := None) == s.log.(seen := None))
            && o.site == s.site.(seqno := o.site.seqno)
            && (o.log.seen == s.log.seen || Notes(o.log.seen, s.site))
  {
    hide ValidMoves, ValidTree, RedoChain, MovesKnown;
  }

  /** The hint saves reading: while it holds, accepting works though the file cannot
      be read. */
  lemma HintSavesReading(s: State, env: Env)
    requires Good(s) && s.log.seen.Some? && s.site.file.Some?
    requires |s.site.file.value.bytes| == s.log.seen.value.len
    requires s.site.file.value.modified == s.log.seen.value.modified
    requires s.log.seen.value.modified + 2_000_000_000 < s.log.seen.value.noted
    ensures Acknowledged(s.log, s.site, env) == Outcome(Ok(()), s.log, s.site)
  {
  }

  /** A read accepts an outside edit exactly when the file still holds what was read;
      otherwise it changes nothing. */
  lemma ReadAccepts(s: State, digest: Bytes, env: Env)
    requires Good(s) && !env.readFails && s.log.changes != []
    requires At(s.log.changes, s.log.current) != StampOf(s.site.Content())
    ensures var o := AcknowledgedSeen(s.log, s.site, digest, env);
            var accepts := s.site.Content() == Some(digest);
            && o.result == Ok(())
            && (accepts ==> State(o.log, o.site) == Step(s, Acknowledge(env)))
            && (accepts ==> o.log.current == |o.log.changes| == |s.log.changes| + 1)
            && (!accepts ==> o.log == s.log && o.site == s.site)
  {
    hide ValidMoves, ValidTree, RedoChain, MovesKnown;
    AcceptedEditIsClosed(s, env);
    HintAgreesWithReading(s, env);
  }

  // ---------- recording external edits ----------

  /** `m` is below `id`, and every edge between them is open. */
  ghost predicate OpenDown(tree: Tree, id: nat, m: nat)
    requires ValidTree(tree) && id <= |tree|
  {
    m < id && Anc(tree, m, id) && forall e | 0 < e <= |tree| && Anc(tree, e, id) && !Anc(tree, e, m) :: Open(tree, e)
  }

  lemma {:induction false} ReachesExactly(tree: Tree, id: nat, digest: Option<Bytes>)
    requires ValidTree(tree) && id <= |tree|
    ensures Reaches(tree, id, digest) <==>
            exists m: nat | m <= |tree| :: OpenDown(tree, id, m) && DigestOf(At(tree, m)) == digest
    decreases id
  {
    hide Open, At;
    if id == 0 {
    } else {
      assert ValidChange(tree, id - 1);
      var p := Parent(tree, id);
      ReachesExactly(tree, p, digest);
      ParentDown(tree, id);
      if Open(tree, id) {
        forall m: nat | m <= |tree| ensures OpenDown(tree, id, m) <==> m == p || OpenDown(tree, p, m) {
          DownThrough(tree, id, m);
        }
        assert DigestOf(At(tree, p)) == DigestOf(tree[id - 1].before);
      } else {
        forall m: nat | m <= |tree| && OpenDown(tree, id, m) ensures false {
          NotAbove(tree, id, m);
        }
      }
    }
  }

  lemma ParentDown(tree: Tree, id: nat)
    requires ValidTree(tree) && 0 < id <= |tree|
    ensures Parent(tree, id) < id
    ensures forall a :: Anc(tree, a, id) <==> a == id || Anc(tree, a, Parent(tree, id))
  {
    assert ValidChange(tree, id - 1);
  }

  lemma DownThrough(tree: Tree, id: nat, m: nat)
    requires ValidTree(tree) && 0 < id <= |tree| && Open(tree, id) && m <= |tree|
    ensures Parent(tree, id) < id
    ensures OpenDown(tree, id, m) <==> m == Parent(tree, id) || OpenDown(tree, Parent(tree, id), m)
  {
    hide Open;
    ParentDown(tree, id);
    var p := Parent(tree, id);
    if m <= p {
      NotAbove(tree, id, m);
    }
    if Anc(tree, m, p) {
      AncIsOlder(tree, m, p);
    }
  }

  /** Replay finds the current content exactly when the file has some, and an older
      revision it was changed from over open edges holds what the caller saw, if the
      caller has the content. */
  lemma ReplayFindsExactly(log: Log, start: Option<Snapshot>)
    requires ValidLog(log)
    ensures Replayed(log, start).Some? <==>
            && log.current > 0 && At(log.changes, log.current).Some?
            && (start.Some? ==> start.value.content.Some?)
            && exists m: nat | m <= |log.changes| ::
                 OpenDown(log.changes, log.current, m) && DigestOf(At(log.changes, m)) == SnapshotDigest(start)
  {
    hide RedoChain, MovesKnown, Open;
    ReachesExactly(log.changes, log.current, SnapshotDigest(start));
  }

  /** The earlier side of an external edit is known: what the caller saw is what the
      history expects, or the file was absent, or replay finds it. */
  ghost predicate EarlierKnown(log: Log, before: Option<Snapshot>)
    requires ValidLog(log)
  {
    if log.changes == [] || DigestOf(At(log.changes, log.current)) == SnapshotDigest(before)
    then before.None? || before.value.content.Some?
    else
      || At(log.changes, log.current).None?
      || (&& log.current > 0
          && (before.Some? ==> before.value.content.Some?)
          && exists m: nat | m <= |log.changes| ::
               OpenDown(log.changes, log.current, m) && DigestOf(At(log.changes, m)) == SnapshotDigest(before))
  }

  lemma ExternalIs(log: Log, seqno: nat, before: Option<Snapshot>, after: Option<Snapshot>)
    requires ValidLog(log)
    ensures var c := ExternalChange(log, seqno, before, after);
            && c.id == |log.changes| + 1 && c.parent == log.current && c.operation == Operation.External
            && DigestOf(c.after) == SnapshotDigest(after)
            && (log.changes == [] ==> DigestOf(c.before) == SnapshotDigest(before))
            && (c.restorable <==> EarlierKnown(log, before) && (after.Some? ==> after.value.content.Some?))
  {
    hide Between, RedoChain, MovesKnown, OpenDown, Replayed, ValidTree;
    ReplayFindsExactly(log, before);
  }

  /** An external edit becomes one new revision with the content found. It can be
      crossed exactly when both sides are absent or known; undoing it then brings back
      the content the history left off at. */
  lemma RecordedExactly(s: State, before: Option<Snapshot>, after: Option<Snapshot>, env: Env)
    requires Good(s) && Honest(before) && Honest(after) && !env.readFails
    ensures var o, tree := Recorded(s.log, s.site, before, after, env), s.log.changes;
            && ValidLog(o.log) && tree <= o.log.changes && |o.log.changes| == |tree| + 1
            && o.result == Ok(o.log.current) && o.log.current == |o.log.changes| && o.log.redo == []
            && o.log.changes[o.log.current - 1].operation == Operation.External
            && Parent(o.log.changes, o.log.current) == s.log.current
            && DigestOf(At(o.log.changes, o.log.current)) == SnapshotDigest(after)
            && DigestOf(At(o.log.changes, s.log.current))
                 == (if tree == [] then SnapshotDigest(before) else DigestOf(At(tree, s.log.current)))
            && o.log.seen == None && o.site == s.site.(seqno := s.site.seqno + 1)
            && (Open(o.log.changes, o.log.current) <==>
                  EarlierKnown(s.log, before) && (after.Some? ==> after.value.content.Some?))
  {
    hide ValidMoves, ValidHint, RedoChain, MovesKnown, EarlierKnown, ExternalChange;
    ExternalIs(s.log, s.site.seqno + 1, before, after);
    RecordExtends(s.log, s.site, before, after, env);
    hide ValidTree;
  }

  /** Recording fails only when the file cannot be read, and then changes nothing. */
  lemma RecordingFails(s: State, before: Option<Snapshot>, after: Option<Snapshot>, env: Env)
    requires Good(s)
    ensures var o := Recorded(s.log, s.site, before, after, env);
            && (o.result.Err? <==> env.readFails)
            && (env.readFails ==> o.result == Err(Io) && From(o) == s)
  {
    hide ValidMoves, ValidHint, RedoChain, MovesKnown, ValidTree, ExternalChange;
  }
}
