/** One file's branching history: what each operation does to it, as functions
    on values, and the class whose methods carry the operations out. */
module Timelines {
  import opened Base
  import opened Splices

  datatype Operation = Write | Append | Remove | External | Outside

  /** The digest of a file's content. Digests are taken to be free of
      collisions, so the model's digest is the content it was computed from.
      Only the specification looks inside; the operations compare digests. */
  datatype Stamp = Stamp(digest: Bytes)

  datatype Snapshot = Snapshot(size: nat, digest: Bytes, content: Option<Bytes>)

  datatype Change = Change(
    id: nat,
    parent: nat,
    operation: Operation,
    splice: Splice,
    restorable: bool,
    before: Option<Stamp>,
    after: Option<Stamp>,
    seqno: nat)

  /** The revisions of a file, each naming its parent: revision `id` is entry
      `id - 1`, and 0 is the state before the first change. */
  type Tree = seq<Change>

  /** A file on disk, with its modification time. Times count nanoseconds. */
  datatype File = File(bytes: Bytes, modified: int)

  const HINT_WINDOW := 2_000_000_000

  /** How long before a write its modification time may lie. */
  type Age = n: nat | n < HINT_WINDOW

  datatype Hint = Hint(len: nat, modified: int, noted: int) {
    /** The file still has the noted size and time, and that time is old
        enough for no later write to share it. */
    predicate Still(file: Option<File>) {
      && file.Some?
      && |file.value.bytes| == len
      && file.value.modified == modified
      && modified + HINT_WINDOW < noted
    }
  }

  datatype Move = Move(seqno: nat, from: nat)

  datatype FsError =
    | Conflict
    | UnknownRevision(id: nat)
    | NoUndo
    | NoRedo
    | NotFound
    | Unsupported
    | NotRestorable
    | ChangedOutside
    | Io

  /** What a timeline holds. */
  datatype Log = Log(
    changes: seq<Change>,
    current: nat,
    redo: seq<nat>,
    seen: Option<Hint>,
    moves: seq<Move>)

  /** What an operation sees of the world: its file, the clock, and the
      counter that orders changes across all files. */
  datatype Site = Site(file: Option<File>, now: int, seqno: nat) {
    function Content(): Option<Bytes> {
      if file.Some? then Some(file.value.bytes) else None
    }

    function Noted(): Option<Hint> {
      if file.Some? then Some(Hint(|file.value.bytes|, file.value.modified, now)) else None
    }

    /** The file replaced by `bytes`, or removed. */
    function Committed(bytes: Option<Bytes>, age: Age): Site {
      this.(file := if bytes.Some? then Some(File(bytes.value, now - age)) else None)
    }
  }

  /** What the environment decides about one operation. */
  datatype Env = Env(readFails: bool, commitFails: bool, age: Age)

  datatype Outcome<T> = Outcome(result: Result<T, FsError>, log: Log, site: Site)

  function StampOf(bytes: Option<Bytes>): Option<Stamp> {
    if bytes.Some? then Some(Stamp(bytes.value)) else None
  }

  function SnapshotOf(bytes: Option<Bytes>): Option<Snapshot> {
    if bytes.Some? then Some(Snapshot(|bytes.value|, bytes.value, Some(bytes.value))) else None
  }

  /** A snapshot that kept content kept the content it digests. */
  predicate Honest(s: Option<Snapshot>) {
    s.Some? && s.value.content.Some? ==> s.value.content.value == s.value.digest
  }

  function DigestOf(stamp: Option<Stamp>): Option<Bytes> {
    if stamp.Some? then Some(stamp.value.digest) else None
  }

  // ---------- the revision tree ----------

  predicate Known(tree: Tree, id: nat) {
    tree != [] && id <= |tree|
  }

  /** The recorded state of revision `id`. */
  function At(tree: Tree, id: nat): Option<Stamp>
    requires Known(tree, id)
  {
    if id == 0 then tree[0].before else tree[id - 1].after
  }

  function Parent(tree: Tree, id: nat): nat
    requires 0 < id <= |tree|
  {
    tree[id - 1].parent
  }

  /** Undo and redo may cross the edge from `id` to its parent. */
  predicate Open(tree: Tree, id: nat)
    requires 0 < id <= |tree|
  {
    !tree[id - 1].operation.Outside? && tree[id - 1].restorable
  }

  function TextOf(stamp: Option<Stamp>): Bytes {
    if stamp.Some? then stamp.value.digest else ""
  }

  ghost predicate ValidChange(tree: Tree, i: nat)
    requires i < |tree|
  {
    var c := tree[i];
    && c.id == i + 1
    && c.parent <= i
    && c.before == At(tree, c.parent)
    && (c.restorable ==> Takes(c.splice, TextOf(c.before), TextOf(c.after)))
    && (c.operation.Outside? ==> !c.restorable)
  }

  ghost predicate ValidTree(tree: Tree) {
    forall i | 0 <= i < |tree| :: ValidChange(tree, i)
  }

  /** Entry `k` of the redo stack is an open edge above the entry over it, or
      above the cursor when it is the top. */
  ghost predicate RedoEntry(log: Log, k: nat)
    requires k < |log.redo|
  {
    && 0 < log.redo[k] <= |log.changes|
    && Open(log.changes, log.redo[k])
    && Parent(log.changes, log.redo[k]) == if k + 1 < |log.redo| then log.redo[k + 1] else log.current
  }

  /** The redo stack is a parent chain of open edges ending at the cursor. */
  ghost predicate RedoChain(log: Log) {
    forall k | 0 <= k < |log.redo| :: RedoEntry(log, k)
  }

  ghost predicate MovesKnown(log: Log) {
    forall k | 0 <= k < |log.moves| :: Known(log.changes, log.moves[k].from)
  }

  ghost predicate ValidLog(log: Log) {
    && ValidTree(log.changes)
    && log.current <= |log.changes|
    && RedoChain(log)
    && MovesKnown(log)
  }

  /** The file is as the history left it, or there is no history yet. */
  predicate Holds(log: Log, site: Site)
    requires log.current <= |log.changes|
  {
    log.changes == [] || StampOf(site.Content()) == At(log.changes, log.current)
  }

  /** The edges walked from `left` down and from `right` down until the two
      walks meet. */
  function Walk(tree: Tree, left: nat, right: nat): (w: (seq<nat>, seq<nat>))
    requires ValidTree(tree) && left <= |tree| && right <= |tree|
    ensures forall k | 0 <= k < |w.0| :: 0 < w.0[k] <= |tree|
    ensures forall k | 0 <= k < |w.1| :: 0 < w.1[k] <= |tree|
    decreases left + right
  {
    if left == right then ([], [])
    else if left > right then
      assert ValidChange(tree, left - 1);
      var w := Walk(tree, Parent(tree, left), right);
      ([left] + w.0, w.1)
    else
      assert ValidChange(tree, right - 1);
      var w := Walk(tree, left, Parent(tree, right));
      (w.0, [right] + w.1)
  }

  /** Why the first closed edge among `ids` cannot be crossed. */
  function FirstClosed(tree: Tree, ids: seq<nat>): Option<FsError>
    requires forall k | 0 <= k < |ids| :: 0 < ids[k] <= |tree|
  {
    if ids == [] then None
    else if tree[ids[0] - 1].operation.Outside? then Some(ChangedOutside)
    else if !tree[ids[0] - 1].restorable then Some(NotRestorable)
    else FirstClosed(tree, ids[1..])
  }

  lemma {:induction false} NoneClosed(tree: Tree, ids: seq<nat>)
    requires forall k | 0 <= k < |ids| :: 0 < ids[k] <= |tree|
    ensures FirstClosed(tree, ids).None? <==> forall id | id in ids && 0 < id <= |tree| :: Open(tree, id)
    ensures FirstClosed(tree, ids).None? ==> forall k | 0 <= k < |ids| :: Open(tree, ids[k])
  {
    if ids != [] {
      NoneClosed(tree, ids[1..]);
      assert ids[0] in ids;
      assert forall id | id in ids :: id == ids[0] || id in ids[1..];
      assert forall id | id in ids[1..] :: id in ids;
    }
  }

  /** Where the first `k` edges of `ids` lead from `from`. */
  function Below(tree: Tree, from: nat, ids: seq<nat>, k: nat): nat
    requires k <= |ids| && (k > 0 ==> 0 < ids[k - 1] <= |tree|)
  {
    if k == 0 then from else Parent(tree, ids[k - 1])
  }

  /** `ids` are the edges from `from` down to `meet`. */
  ghost predicate Chain(tree: Tree, from: nat, ids: seq<nat>, meet: nat) {
    && from <= |tree|
    && meet <= |tree|
    && (forall k | 0 <= k < |ids| :: 0 < ids[k] <= |tree|)
    && (forall k {:trigger Below(tree, from, ids, k)} | 0 <= k <= |ids| ::
          && Below(tree, from, ids, k) <= |tree|
          && (k < |ids| ==> ids[k] == Below(tree, from, ids, k)))
    && meet == Below(tree, from, ids, |ids|)
  }

  lemma Extend(tree: Tree, id: nat, ids: seq<nat>, meet: nat)
    requires 0 < id <= |tree| && Chain(tree, Parent(tree, id), ids, meet)
    ensures Chain(tree, id, [id] + ids, meet)
  {
    var all := [id] + ids;
    forall k | 1 <= k <= |all|
      ensures Below(tree, id, all, k) == Below(tree, Parent(tree, id), ids, k - 1)
    {
    }
  }

  /** `a` is `id` or one of its ancestors. */
  predicate Anc(tree: Tree, a: nat, id: nat)
    requires ValidTree(tree) && id <= |tree|
    decreases id
  {
    a == id || (id > 0 && (assert ValidChange(tree, id - 1); Anc(tree, a, Parent(tree, id))))
  }

  lemma {:induction false} AncIsOlder(tree: Tree, a: nat, id: nat)
    requires ValidTree(tree) && id <= |tree| && Anc(tree, a, id)
    ensures a <= id
    decreases id
  {
    if a != id {
      assert ValidChange(tree, id - 1);
      AncIsOlder(tree, a, Parent(tree, id));
    }
  }

  /** The edge above `id` lies on the tree path between `a` and `b`. */
  predicate OnPath(tree: Tree, a: nat, b: nat, id: nat)
    requires ValidTree(tree) && a <= |tree| && b <= |tree|
  {
    Anc(tree, id, a) != Anc(tree, id, b)
  }

  /** The walk crosses exactly the edges of the tree path, and its two halves
      meet at the nearest common ancestor. */
  lemma {:induction false} WalkIsTreePath(tree: Tree, left: nat, right: nat) returns (meet: nat)
    requires ValidTree(tree) && left <= |tree| && right <= |tree|
    ensures Chain(tree, left, Walk(tree, left, right).0, meet)
    ensures Chain(tree, right, Walk(tree, left, right).1, meet)
    ensures Anc(tree, meet, left) && Anc(tree, meet, right)
    ensures forall c: nat | Anc(tree, c, left) && Anc(tree, c, right) :: c <= meet
    ensures forall id: nat :: id in Walk(tree, left, right).0 <==> Anc(tree, id, left) && !Anc(tree, id, right)
    ensures forall id: nat :: id in Walk(tree, left, right).1 <==> Anc(tree, id, right) && !Anc(tree, id, left)
    decreases left + right
  {
    if left == right {
      meet := left;
      forall c: nat | Anc(tree, c, left)
        ensures c <= meet
      {
        AncIsOlder(tree, c, left);
      }
    } else if left > right {
      assert ValidChange(tree, left - 1);
      meet := WalkIsTreePath(tree, Parent(tree, left), right);
      Extend(tree, left, Walk(tree, Parent(tree, left), right).0, meet);
      NotAbove(tree, left, right);
    } else {
      assert ValidChange(tree, right - 1);
      meet := WalkIsTreePath(tree, left, Parent(tree, right));
      Extend(tree, right, Walk(tree, left, Parent(tree, right)).1, meet);
      NotAbove(tree, right, left);
    }
  }

  lemma NotAbove(tree: Tree, a: nat, id: nat)
    requires ValidTree(tree) && id <= |tree| && id < a
    ensures !Anc(tree, a, id)
  {
    if Anc(tree, a, id) {
      AncIsOlder(tree, a, id);
    }
  }

  /** The walk over one edge. */
  lemma OneEdge(tree: Tree, id: nat)
    requires ValidTree(tree) && 0 < id <= |tree|
    ensures Parent(tree, id) < id
    ensures Walk(tree, id, Parent(tree, id)).0 == [id] && Walk(tree, id, Parent(tree, id)).1 == []
    ensures Walk(tree, Parent(tree, id), id).0 == [] && Walk(tree, Parent(tree, id), id).1 == [id]
    ensures FirstClosed(tree, [id]).None? <==> Open(tree, id)
  {
    assert ValidChange(tree, id - 1);
    assert [id][1..] == [];
    assert Walk(tree, Parent(tree, id), Parent(tree, id)) == ([], []);
  }

  // ---------- what each operation does ----------

  function Failed<T>(error: FsError, log: Log, site: Site): Outcome<T> {
    Outcome(Err(error), log, site)
  }

  /** The log with `c` appended as a child of the cursor. */
  function Pushed(log: Log, c: Change, seen: Option<Hint>): Log {
    Log(log.changes + [c], c.id, [], seen, log.moves + [Move(c.seqno, log.current)])
  }

  function Written(operation: Operation, was: Option<Bytes>, content: Bytes): Option<Bytes> {
    match operation
    case Append => Some(was.GetOr("") + content)
    case Remove => None
    case _ => Some(content)
  }

  /** What the file will hold after a write, an append or a removal. */
  function Planned(log: Log, site: Site, operation: Operation, content: Bytes, readFails: bool)
    : Result<Option<Bytes>, FsError>
    requires log.current <= |log.changes|
  {
    if readFails then Err(Io)
    else if !Holds(log, site) then Err(Conflict)
    else if operation.External? || operation.Outside? then Err(Unsupported)
    else if operation.Remove? && site.file.None? then Err(NotFound)
    else Ok(Written(operation, site.Content(), content))
  }

  function MutationChange(log: Log, site: Site, operation: Operation, now: Option<Bytes>): Change {
    Change(|log.changes| + 1, log.current, operation, Between(site.Content().GetOr(""), now.GetOr("")),
           true, StampOf(site.Content()), StampOf(now), site.seqno + 1)
  }

  /** Writing, appending to or removing the file. */
  function Mutated(log: Log, site: Site, operation: Operation, content: Bytes, env: Env): Outcome<nat>
    requires log.current <= |log.changes|
  {
    match Planned(log, site, operation, content, env.readFails)
    case Err(e) => Failed(e, log, site)
    case Ok(now) =>
      if env.commitFails then Failed(Io, log, site)
      else
        var c := MutationChange(log, site, operation, now);
        var after := site.Committed(now, env.age).(seqno := c.seqno);
        Outcome(Ok(c.id), Pushed(log, c, after.Noted()), after)
  }

  /** The content the file would have at revision `target`. */
  function Rebuilt(log: Log, site: Site, target: nat, readFails: bool): Result<Option<Bytes>, FsError>
    requires ValidLog(log)
  {
    if target > |log.changes| then Err(UnknownRevision(target))
    else if readFails then Err(Io)
    else if !Holds(log, site) then Err(Conflict)
    else
      var w := Walk(log.changes, log.current, target);
      var closed := FirstClosed(log.changes, w.0 + w.1);
      if closed.Some? then Err(closed.value)
      else if log.changes == [] then Ok(site.Content())
      else Ok(DigestOf(At(log.changes, target)))
  }

  /** Moving the cursor and the file to revision `target`. */
  function Restored(log: Log, site: Site, target: nat, env: Env): Outcome<nat>
    requires ValidLog(log)
  {
    match Rebuilt(log, site, target, env.readFails)
    case Err(e) => Failed(e, log, site)
    case Ok(image) =>
      if log.current == target then Outcome(Ok(target), log, site)
      else if env.commitFails then Failed(Io, log, site)
      else
        var seqno := site.seqno + 1;
        Outcome(Ok(target),
                log.(moves := log.moves + [Move(seqno, log.current)], current := target),
                site.Committed(image, env.age).(seqno := seqno))
  }

  /** A restore asked for by a caller: it leaves nothing to redo. */
  function RestoredTo(log: Log, site: Site, target: nat, env: Env): Outcome<nat>
    requires ValidLog(log)
  {
    var o := Restored(log, site, target, env);
    if o.result.Ok? then o.(log := o.log.(redo := [])) else o
  }

  function Undone(log: Log, site: Site, env: Env): Outcome<nat>
    requires ValidLog(log)
  {
    if log.current == 0 then Failed(NoUndo, log, site)
    else
      var o := Restored(log, site, Parent(log.changes, log.current), env);
      if o.result.Ok? then o.(log := o.log.(redo := o.log.redo + [log.current])) else o
  }

  function Redone(log: Log, site: Site, env: Env): Outcome<nat>
    requires ValidLog(log)
  {
    if log.redo == [] then Failed(NoRedo, log, site)
    else
      var o := Restored(log, site, log.redo[|log.redo| - 1], env);
      if o.result.Ok? then o.(log := o.log.(redo := o.log.redo[..|o.log.redo| - 1])) else o
  }

  /** Some ancestor edge of `id`, reached over open edges only and itself
      open, starts at content with digest `digest`. */
  predicate Reaches(tree: Tree, id: nat, digest: Option<Bytes>)
    requires ValidTree(tree) && id <= |tree|
  {
    if id == 0 || !Open(tree, id) then false
    else if DigestOf(tree[id - 1].before) == digest then true
    else
      assert ValidChange(tree, id - 1);
      Reaches(tree, Parent(tree, id), digest)
  }

  function SnapshotDigest(s: Option<Snapshot>): Option<Bytes> {
    if s.Some? then Some(s.value.digest) else None
  }

  function Kept(s: Option<Snapshot>): Option<Bytes> {
    if s.Some? then s.value.content else None
  }

  /** The content of the current revision when it can be rebuilt from
      `start` by replaying this history's own changes. */
  function Replayed(log: Log, start: Option<Snapshot>): Option<Bytes>
    requires ValidTree(log.changes) && log.current <= |log.changes|
  {
    if Reaches(log.changes, log.current, SnapshotDigest(start)) && (start.Some? ==> start.value.content.Some?)
    then DigestOf(At(log.changes, log.current))
    else None
  }

  /** The state the history left off at, and its content when known, for a
      change whose earlier side was seen as `before`. */
  function LeftOff(log: Log, before: Option<Snapshot>): (Option<Stamp>, Option<Bytes>)
    requires ValidTree(log.changes) && log.current <= |log.changes|
  {
    var seen := StampOf(SnapshotDigest(before));
    if log.changes == [] || At(log.changes, log.current) == seen then (seen, Kept(before))
    else (At(log.changes, log.current), Replayed(log, before))
  }

  function ExternalChange(log: Log, seqno: nat, before: Option<Snapshot>, after: Option<Snapshot>): Change
    requires ValidTree(log.changes) && log.current <= |log.changes|
  {
    var (stamp, bytes) := LeftOff(log, before);
    var restorable := (stamp.None? || bytes.Some?) && (after.None? || after.value.content.Some?);
    var splice := if restorable then Between(bytes.GetOr(""), Kept(after).GetOr("")) else Splice(0, "", "");
    Change(|log.changes| + 1, log.current, External, splice, restorable,
           stamp, StampOf(SnapshotDigest(after)), seqno)
  }

  /** Recording a change another program made to the file. */
  function Recorded(log: Log, site: Site, before: Option<Snapshot>, after: Option<Snapshot>, env: Env): Outcome<nat>
    requires ValidLog(log)
  {
    if env.readFails then Failed(Io, log, site)
    else
      var c := ExternalChange(log, site.seqno + 1, before, after);
      Outcome(Ok(c.id), Pushed(log, c, None), site.(seqno := site.seqno + 1))
  }

  function Barrier(log: Log, site: Site): Change
    requires Known(log.changes, log.current)
  {
    Change(|log.changes| + 1, log.current, Outside, Splice(0, "", ""), false,
           At(log.changes, log.current), StampOf(site.Content()), site.seqno + 1)
  }

  /** Accepting an edit made outside, by reading the file. */
  function AcknowledgedByReading(log: Log, site: Site, env: Env): Outcome<()>
    requires ValidLog(log)
  {
    if log.changes == [] then Outcome(Ok(()), log, site)
    else if env.readFails then Failed(Io, log, site)
    else if Holds(log, site) then Outcome(Ok(()), log.(seen := site.Noted()), site)
    else Outcome(Ok(()), Pushed(log, Barrier(log, site), site.Noted()), site.(seqno := site.seqno + 1))
  }

  /** Accepting an edit made outside; a hint that still holds saves reading. */
  function Acknowledged(log: Log, site: Site, env: Env): Outcome<()>
    requires ValidLog(log)
  {
    if log.changes != [] && log.seen.Some? && log.seen.value.Still(site.file)
    then Outcome(Ok(()), log, site)
    else AcknowledgedByReading(log, site, env)
  }

  /** Accepting an edit made outside, when the file holds `digest`. */
  function AcknowledgedSeen(log: Log, site: Site, digest: Bytes, env: Env): Outcome<()>
    requires ValidLog(log)
  {
    if log.changes == [] || At(log.changes, log.current) == Some(Stamp(digest)) then Outcome(Ok(()), log, site)
    else if env.readFails then Failed(Io, log, site)
    else if StampOf(site.Content()) != Some(Stamp(digest)) then Outcome(Ok(()), log, site)
    else Acknowledged(log, site, env)
  }

  datatype Moved = Moved(revision: nat, before: Option<Snapshot>, after: Option<Snapshot>)

  function FirstAfter(moves: seq<Move>, mark: nat): Option<Move> {
    if moves == [] then None
    else if moves[0].seqno > mark then Some(moves[0])
    else FirstAfter(moves[1..], mark)
  }

  /** The revision the file has moved to after `mark`, with what it held at the mark
      and what it holds. */
  function MovedAfter(log: Log, site: Site, mark: nat, readFails: bool): Option<Moved>
    requires ValidLog(log)
  {
    var first := FirstAfter(log.moves, mark);
    if first.None? || first.value.from == log.current || readFails then None
    else
      var from := first.value.from;
      assert Known(log.changes, from) by { FirstAfterIsMove(log.moves, mark); }
      if StampOf(site.Content()) != At(log.changes, log.current) then None
      else
        var image := Rebuilt(log, site, from, false);
        var before := if image.Ok? then SnapshotOf(image.value)
                      else if At(log.changes, from).Some?
                      then Some(Snapshot(0, At(log.changes, from).value.digest, None))
                      else None;
        Some(Moved(log.current, before, SnapshotOf(site.Content())))
  }

  lemma {:induction false} FirstAfterIsMove(moves: seq<Move>, mark: nat)
    ensures var m := FirstAfter(moves, mark);
            m.Some? ==> m.value in moves && m.value.seqno > mark
  {
    if moves != [] && moves[0].seqno <= mark {
      FirstAfterIsMove(moves[1..], mark);
    }
  }

  // ---------- every operation keeps the log valid ----------

  ghost predicate Fresh(log: Log, c: Change)
    requires log.current <= |log.changes|
  {
    && c.id == |log.changes| + 1
    && c.parent == log.current
    && (log.changes != [] ==> c.before == At(log.changes, log.current))
    && (c.restorable ==> Takes(c.splice, TextOf(c.before), TextOf(c.after)))
    && (c.operation.Outside? ==> !c.restorable)
  }

  /** `after` is valid and holds every revision of `log`, unchanged. */
  ghost predicate Extends(log: Log, after: Log) {
    && ValidLog(after)
    && log.changes <= after.changes
    && (forall id | Known(log.changes, id) ::
          Known(after.changes, id) && At(after.changes, id) == At(log.changes, id))
  }

  lemma PushExtends(log: Log, c: Change, seen: Option<Hint>)
    requires ValidLog(log) && Fresh(log, c)
    ensures Extends(log, Pushed(log, c, seen))
  {
    var pushed := Pushed(log, c, seen);
    assert log.changes == [] ==> log.current == 0;
    forall i | 0 <= i < |pushed.changes|
      ensures ValidChange(pushed.changes, i)
    {
      if i < |log.changes| {
        assert ValidChange(log.changes, i);
      }
    }
  }

  lemma MutateExtends(log: Log, site: Site, operation: Operation, content: Bytes, env: Env)
    requires ValidLog(log)
    ensures Extends(log, Mutated(log, site, operation, content, env).log)
  {
    hide Splices.Between;
    var plan := Planned(log, site, operation, content, env.readFails);
    if plan.Ok? {
      var c := MutationChange(log, site, operation, plan.value);
      assert Fresh(log, c);
      PushExtends(log, c, Mutated(log, site, operation, content, env).log.seen);
    }
  }

  lemma ExternalIsFresh(log: Log, seqno: nat, before: Option<Snapshot>, after: Option<Snapshot>)
    requires ValidLog(log) && Honest(before) && Honest(after)
    ensures Fresh(log, ExternalChange(log, seqno, before, after))
  {
    hide Splices.Between, Reaches;
  }

  lemma RecordExtends(log: Log, site: Site, before: Option<Snapshot>, after: Option<Snapshot>, env: Env)
    requires ValidLog(log) && Honest(before) && Honest(after)
    ensures Extends(log, Recorded(log, site, before, after, env).log)
  {
    hide ExternalChange;
    ExternalIsFresh(log, site.seqno + 1, before, after);
    PushExtends(log, ExternalChange(log, site.seqno + 1, before, after), None);
  }

  lemma AcknowledgeExtends(log: Log, site: Site, env: Env)
    requires ValidLog(log)
    ensures Extends(log, Acknowledged(log, site, env).log)
  {
    if log.changes != [] {
      PushExtends(log, Barrier(log, site), site.Noted());
      var kept := log.(seen := site.Noted());
      forall k | 0 <= k < |kept.redo|
        ensures RedoEntry(kept, k)
      {
        assert RedoEntry(log, k);
      }
    }
  }

  lemma UndoExtends(log: Log, site: Site, env: Env)
    requires ValidLog(log)
    ensures Extends(log, Undone(log, site, env).log)
  {
    if log.current > 0 {
      var after := Undone(log, site, env).log;
      OneEdge(log.changes, log.current);
      assert [log.current] + [] == [log.current];
      forall k | 0 <= k < |after.redo|
        ensures RedoEntry(after, k)
      {
        assert k < |log.redo| ==> RedoEntry(log, k);
      }
    }
  }

  lemma RedoExtends(log: Log, site: Site, env: Env)
    requires ValidLog(log)
    ensures Extends(log, Redone(log, site, env).log)
  {
    if log.redo != [] {
      var after := Redone(log, site, env).log;
      assert RedoEntry(log, |log.redo| - 1);
      OneEdge(log.changes, log.redo[|log.redo| - 1]);
      forall k | 0 <= k < |after.redo|
        ensures RedoEntry(after, k)
      {
        assert RedoEntry(log, k);
      }
    }
  }

  lemma RestoreToExtends(log: Log, site: Site, target: nat, env: Env)
    requires ValidLog(log)
    ensures Extends(log, RestoredTo(log, site, target, env).log)
  {
    hide Walk, FirstClosed;
    forall k | 0 <= k < |log.redo|
      ensures RedoEntry(log, k)
    {
    }
  }
}
