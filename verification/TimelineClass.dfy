/** The timeline as the program keeps it: fields that its methods update in
    place. Each method is proved equal to its function in `Timelines`; the
    walks, the replay and the searches are loops here. */
module TimelineClass {
  import opened Base
  import opened Splices
  import opened Timelines

  function ContentAt(files: map<Path, File>, path: Path): Option<Bytes> {
    if path in files then Some(files[path].bytes) else None
  }

  /** The files on disk, the clock, and the counter that orders changes. */
  class Disk {
    var files: map<Path, File>
    var now: int
    var seqno: nat

    function At(path: Path): (s: Site)
      reads this
      ensures s.Content() == ContentAt(files, path)
    {
      Site(if path in files then Some(files[path]) else None, now, seqno)
    }

    /** Replace or remove a file. A commit that fails changes nothing. */
    method Commit(path: Path, bytes: Option<Bytes>, env: Env) returns (done: bool)
      modifies this`files
      ensures done == !env.commitFails
      ensures At(path) == if done then old(At(path)).Committed(bytes, env.age) else old(At(path))
      ensures files - {path} == old(files) - {path}
    {
      done := !env.commitFails;
      if done {
        files := if bytes.Some? then files[path := File(bytes.value, now - env.age)] else files - {path};
      }
    }

    method NextSeqno() returns (n: nat)
      modifies this`seqno
      ensures n == seqno == old(seqno) + 1
    {
      seqno := seqno + 1;
      n := seqno;
    }
  }

  /** The bytes of `image` after one stored change, read forward or backward.
      The splice must lie within the bytes, or the program would stop here. */
  function Apply(image: Option<Bytes>, c: Change, forward: bool): Option<Bytes>
    requires (if forward then c.after else c.before).Some? ==>
               c.splice.offset + |if forward then c.splice.removed else c.splice.added| <= |image.GetOr("")|
  {
    var remove := if forward then c.splice.removed else c.splice.added;
    var insert := if forward then c.splice.added else c.splice.removed;
    var stamp := if forward then c.after else c.before;
    if stamp.Some? then Some(Replace(image.GetOr(""), c.splice.offset, |remove|, insert)) else None
  }

  /** Crossing an open edge, either way, turns one recorded content into the
      other, and its splice is in bounds. */
  lemma ApplyCrosses(tree: Tree, id: nat)
    requires ValidTree(tree) && 0 < id <= |tree| && Open(tree, id)
    ensures Parent(tree, id) < id
    ensures var c := tree[id - 1];
            var above, below := DigestOf(At(tree, id)), DigestOf(At(tree, Parent(tree, id)));
            && c.splice.offset + |c.splice.removed| <= |below.GetOr("")|
            && c.splice.offset + |c.splice.added| <= |above.GetOr("")|
            && Apply(below, c, true) == above
            && Apply(above, c, false) == below
  {
    assert ValidChange(tree, id - 1);
    var c := tree[id - 1];
    BothWays(c.splice, TextOf(c.before), TextOf(c.after));
  }

  /** Two walks down the tree, from the cursor and from `target`, until they meet.
      A parent's id is smaller, so the walk at the larger id moves. */
  method Walks(tree: Tree, current: nat, target: nat) returns (backward: seq<nat>, forward: seq<nat>)
    requires ValidTree(tree) && current <= |tree| && target <= |tree|
    ensures backward == Walk(tree, current, target).0 && forward == Walk(tree, current, target).1
  {
    var left: nat, right: nat := current, target;
    backward, forward := [], [];
    while left != right
      invariant left <= |tree| && right <= |tree|
      invariant Walk(tree, current, target).0 == backward + Walk(tree, left, right).0
      invariant Walk(tree, current, target).1 == forward + Walk(tree, left, right).1
      decreases left + right
    {
      if left > right {
        assert ValidChange(tree, left - 1);
        backward := backward + [left];
        left := tree[left - 1].parent;
      } else {
        assert ValidChange(tree, right - 1);
        forward := forward + [right];
        right := tree[right - 1].parent;
      }
    }
    assert Walk(tree, left, right) == ([], []);
  }

  method ClosedEdge(tree: Tree, ids: seq<nat>) returns (closed: Option<FsError>)
    requires forall k | 0 <= k < |ids| :: 0 < ids[k] <= |tree|
    ensures closed == FirstClosed(tree, ids)
  {
    var k := 0;
    while k < |ids|
      invariant 0 <= k <= |ids|
      invariant FirstClosed(tree, ids) == FirstClosed(tree, ids[k..])
    {
      if tree[ids[k] - 1].operation.Outside? {
        return Some(ChangedOutside);
      }
      if !tree[ids[k] - 1].restorable {
        return Some(NotRestorable);
      }
      assert ids[k..][1..] == ids[k + 1..];
      k := k + 1;
    }
    return None;
  }

  /** Apply open edges backward, from the content at `from` down to `meet`. */
  method Rewind(tree: Tree, start: Option<Bytes>, from: nat, ids: seq<nat>, ghost meet: nat)
    returns (image: Option<Bytes>)
    requires ValidTree(tree) && tree != [] && Chain(tree, from, ids, meet)
    requires forall k | 0 <= k < |ids| :: Open(tree, ids[k])
    requires start == DigestOf(At(tree, from))
    ensures image == DigestOf(At(tree, meet))
  {
    image := start;
    var k := 0;
    while k < |ids|
      invariant 0 <= k <= |ids|
      invariant image == DigestOf(At(tree, Below(tree, from, ids, k)))
    {
      ApplyCrosses(tree, ids[k]);
      image := Apply(image, tree[ids[k] - 1], false);
      k := k + 1;
    }
  }

  /** Apply open edges forward, the last one first, from the content at
      `meet` up to `target`. */
  method Advance(tree: Tree, start: Option<Bytes>, ghost target: nat, ids: seq<nat>, ghost meet: nat)
    returns (image: Option<Bytes>)
    requires ValidTree(tree) && tree != [] && Chain(tree, target, ids, meet)
    requires forall k | 0 <= k < |ids| :: Open(tree, ids[k])
    requires start == DigestOf(At(tree, meet))
    ensures image == DigestOf(At(tree, target))
  {
    image := start;
    var k := |ids|;
    while k > 0
      invariant 0 <= k <= |ids|
      invariant image == DigestOf(At(tree, Below(tree, target, ids, k)))
    {
      k := k - 1;
      ApplyCrosses(tree, ids[k]);
      image := Apply(image, tree[ids[k] - 1], true);
    }
  }

  /** The open edges from the cursor down to the first one that starts at
      content with digest `digest`; none when there is no such edge. */
  method ReplayChain(tree: Tree, current: nat, digest: Option<Bytes>) returns (chain: seq<nat>, ghost meet: nat)
    requires ValidTree(tree) && current <= |tree|
    ensures chain == [] <==> !Reaches(tree, current, digest)
    ensures Chain(tree, current, chain, meet)
    ensures forall k | 0 <= k < |chain| :: Open(tree, chain[k])
    ensures chain != [] ==> tree != [] && DigestOf(At(tree, meet)) == digest
  {
    hide Anc, Open, Chain, At;
    chain := [];
    EmptyChain(tree, current);
    var id: nat := current;
    while true
      invariant id <= |tree|
      invariant Chain(tree, current, chain, id)
      invariant forall k | 0 <= k < |chain| :: 0 < chain[k] <= |tree| && Open(tree, chain[k])
      invariant Reaches(tree, current, digest) == Reaches(tree, id, digest)
      decreases id
    {
      if id == 0 || !Open(tree, id) {
        return [], current;
      }
      assert ValidChange(tree, id - 1);
      Lengthen(tree, current, chain, id);
      chain := chain + [id];
      if DigestOf(tree[id - 1].before) == digest {
        return chain, Parent(tree, id);
      }
      id := tree[id - 1].parent;
    }
  }

  lemma EmptyChain(tree: Tree, from: nat)
    requires from <= |tree|
    ensures Chain(tree, from, [], from)
  {
  }

  lemma Lengthen(tree: Tree, from: nat, ids: seq<nat>, id: nat)
    requires ValidTree(tree) && Chain(tree, from, ids, id) && 0 < id
    ensures Chain(tree, from, ids + [id], Parent(tree, id))
  {
    var all := ids + [id];
    assert ValidChange(tree, id - 1);
    assert forall k | 0 <= k <= |ids| :: Below(tree, from, all, k) == Below(tree, from, ids, k);
  }

  class Timeline {
    var changes: seq<Change>
    var current: nat
    var redo: seq<nat>
    var seen: Option<Hint>
    var moves: seq<Move>

    function View(): Log
      reads this
    {
      Log(changes, current, redo, seen, moves)
    }

    ghost predicate Valid()
      reads this
    {
      ValidLog(View())
    }

    constructor ()
      ensures Valid() && View() == Log([], 0, [], None, [])
    {
      changes, current, redo, seen, moves := [], 0, [], None, [];
    }

    /** The state the file should be in; none without any history. */
    function Expected(): (e: Option<Option<Stamp>>)
      requires current <= |changes|
      reads this
      ensures e == if changes == [] then None else Some(At(changes, current))
    {
      if current == 0 then (if changes == [] then None else Some(changes[0].before))
      else Some(changes[current - 1].after)
    }

    predicate Unexpected(stamp: Option<Stamp>)
      requires current <= |changes|
      reads this
    {
      Expected().Some? && Expected().value != stamp
    }

    /** What the file held at revision `target`, found by splicing what the disk
        holds. */
    method ImageAt(disk: Disk, path: Path, target: nat, readFails: bool) returns (r: Result<Option<Bytes>, FsError>)
      requires Valid()
      ensures r == Rebuilt(View(), disk.At(path), target, readFails)
    {
      hide Walk, FirstClosed, RedoChain, Anc;
      if target > |changes| {
        return Err(UnknownRevision(target));
      }
      if readFails {
        return Err(Io);
      }
      var image := disk.At(path).Content();
      if Unexpected(StampOf(image)) {
        return Err(Conflict);
      }
      var backward, forward := Walks(changes, current, target);
      var edges := backward + forward;
      var closed := ClosedEdge(changes, edges);
      if closed.Some? {
        return Err(closed.value);
      }
      NoneClosed(changes, edges);
      ghost var meet := WalkIsTreePath(changes, current, target);
      if changes == [] {
        return Ok(image);
      }
      assert forall k | 0 <= k < |backward| :: edges[k] == backward[k];
      assert forall k | 0 <= k < |forward| :: edges[|backward| + k] == forward[k];
      image := Rewind(changes, image, current, backward, meet);
      image := Advance(changes, image, target, forward, meet);
      return Ok(image);
    }

    method Plan(disk: Disk, path: Path, operation: Operation, content: Bytes, readFails: bool)
      returns (r: Result<Option<Bytes>, FsError>)
      requires Valid()
      ensures r == Planned(View(), disk.At(path), operation, content, readFails)
    {
      if readFails {
        return Err(Io);
      }
      var before := disk.At(path).Content();
      if Unexpected(StampOf(before)) {
        return Err(Conflict);
      }
      match operation {
        case Write =>
          return Ok(Some(content));
        case Append =>
          return Ok(Some(before.GetOr("") + content));
        case Remove =>
          return if before.None? then Err(NotFound) else Ok(None);
        case _ =>
          return Err(Unsupported);
      }
    }

    method Mutate(disk: Disk, path: Path, operation: Operation, content: Bytes, env: Env)
      returns (r: Result<nat, FsError>)
      requires Valid()
      modifies this, disk
      ensures var o := Mutated(old(View()), old(disk.At(path)), operation, content, env);
              r == o.result && View() == o.log && disk.At(path) == o.site
      ensures disk.files - {path} == old(disk.files) - {path}
      ensures Valid()
    {
      hide Splices.Between, Planned, ValidTree, RedoChain, MovesKnown;
      assert ValidLog(Mutated(View(), disk.At(path), operation, content, env).log) by {
        MutateExtends(View(), disk.At(path), operation, content, env);
      }
      var plan := Plan(disk, path, operation, content, env.readFails);
      if plan.Err? {
        return Err(plan.error);
      }
      var before := disk.At(path).Content();
      var splice := Between(before.GetOr(""), plan.value.GetOr(""));
      var id := |changes| + 1;
      var done := disk.Commit(path, plan.value, env);
      if !done {
        return Err(Io);
      }
      var seqno := disk.NextSeqno();
      moves := moves + [Move(seqno, current)];
      changes := changes + [Change(id, current, operation, splice, true, StampOf(before), StampOf(plan.value), seqno)];
      current := id;
      redo := [];
      seen := disk.At(path).Noted();
      return Ok(id);
    }

    method Restore(disk: Disk, path: Path, target: nat, env: Env) returns (r: Result<nat, FsError>)
      requires Valid()
      modifies this`current, this`moves, disk
      ensures var o := Restored(old(View()), old(disk.At(path)), target, env);
              r == o.result && View() == o.log && disk.At(path) == o.site
      ensures disk.now == old(disk.now)
      ensures disk.files - {path} == old(disk.files) - {path}
    {
      var image := ImageAt(disk, path, target, env.readFails);
      if image.Err? {
        return Err(image.error);
      }
      if current != target {
        var done := disk.Commit(path, image.value, env);
        if !done {
          return Err(Io);
        }
        var seqno := disk.NextSeqno();
        moves := moves + [Move(seqno, current)];
        current := target;
      }
      return Ok(target);
    }

    method RestoreTo(disk: Disk, path: Path, target: nat, env: Env) returns (r: Result<nat, FsError>)
      requires Valid()
      modifies this, disk
      ensures var o := RestoredTo(old(View()), old(disk.At(path)), target, env);
              r == o.result && View() == o.log && disk.At(path) == o.site
      ensures disk.now == old(disk.now)
      ensures disk.files - {path} == old(disk.files) - {path}
      ensures Valid()
    {
      assert ValidLog(RestoredTo(View(), disk.At(path), target, env).log) by {
        RestoreToExtends(View(), disk.At(path), target, env);
      }
      r := Restore(disk, path, target, env);
      if r.Ok? {
        redo := [];
      }
    }

    method Undo(disk: Disk, path: Path, env: Env) returns (r: Result<nat, FsError>)
      requires Valid()
      modifies this, disk
      ensures var o := Undone(old(View()), old(disk.At(path)), env);
              r == o.result && View() == o.log && disk.At(path) == o.site
      ensures disk.files - {path} == old(disk.files) - {path}
      ensures Valid()
    {
      assert ValidLog(Undone(View(), disk.At(path), env).log) by { UndoExtends(View(), disk.At(path), env); }
      var from := current;
      if from == 0 {
        return Err(NoUndo);
      }
      r := Restore(disk, path, changes[from - 1].parent, env);
      if r.Ok? {
        redo := redo + [from];
      }
    }

    method Redo(disk: Disk, path: Path, env: Env) returns (r: Result<nat, FsError>)
      requires Valid()
      modifies this, disk
      ensures var o := Redone(old(View()), old(disk.At(path)), env);
              r == o.result && View() == o.log && disk.At(path) == o.site
      ensures disk.files - {path} == old(disk.files) - {path}
      ensures Valid()
    {
      hide Restored, ValidTree, RedoChain, MovesKnown;
      assert ValidLog(Redone(View(), disk.At(path), env).log) by { RedoExtends(View(), disk.At(path), env); }
      if redo == [] {
        return Err(NoRedo);
      }
      r := Restore(disk, path, redo[|redo| - 1], env);
      if r.Ok? {
        redo := redo[..|redo| - 1];
      }
    }

    method Push(c: Change)
      modifies this
      ensures View() == Pushed(old(View()), c, None)
    {
      seen := None;
      moves := moves + [Move(c.seqno, current)];
      changes := changes + [c];
      current := c.id;
      redo := [];
    }

    /** The current revision's content, found by splicing this history's changes
        into `start`. The digest check at the end never fails. */
    method Replay(start: Option<Snapshot>) returns (r: Option<Bytes>)
      requires Valid() && Honest(start)
      ensures r == Replayed(View(), start)
    {
      var chain; ghost var meet;
      chain, meet := ReplayChain(changes, current, SnapshotDigest(start));
      if chain == [] || (start.Some? && start.value.content.None?) {
        return None;
      }
      var image := Advance(changes, Kept(start), current, chain, meet);
      if image.None? || Expected().None? || Expected().value.None? {
        return None;
      }
      return if Some(Stamp(image.value)) == Expected().value then image else None;
    }

    method Last(before: Option<Snapshot>) returns (stamp: Option<Stamp>, bytes: Option<Bytes>)
      requires Valid() && Honest(before)
      ensures (stamp, bytes) == LeftOff(View(), before)
    {
      var expected := Expected();
      stamp, bytes := StampOf(SnapshotDigest(before)), Kept(before);
      if expected.Some? && expected.value != stamp {
        stamp := expected.value;
        bytes := Replay(before);
      }
    }

    /** The change to store for an edit another program made. */
    method External(seqno: nat, before: Option<Snapshot>, after: Option<Snapshot>) returns (c: Change)
      requires Valid() && Honest(before)
      ensures c == ExternalChange(View(), seqno, before, after)
    {
      var stamp, bytes := Last(before);
      var restorable := (stamp.None? || bytes.Some?) && (after.None? || after.value.content.Some?);
      var splice := Splice(0, "", "");
      if restorable {
        splice := Between(bytes.GetOr(""), Kept(after).GetOr(""));
      }
      c := Change(|changes| + 1, current, Operation.External, splice, restorable,
                  stamp, StampOf(SnapshotDigest(after)), seqno);
    }

    method RecordExternal(disk: Disk, path: Path, before: Option<Snapshot>, after: Option<Snapshot>, env: Env)
      returns (r: Result<nat, FsError>)
      requires Valid() && Honest(before) && Honest(after)
      modifies this, disk`seqno
      ensures var o := Recorded(old(View()), old(disk.At(path)), before, after, env);
              r == o.result && View() == o.log && disk.At(path) == o.site
      ensures disk.files == old(disk.files)
      ensures Valid()
    {
      assert ValidLog(Recorded(View(), disk.At(path), before, after, env).log) by {
        RecordExtends(View(), disk.At(path), before, after, env);
      }
      if env.readFails {
        return Err(Io);
      }
      var seqno := disk.NextSeqno();
      var c := External(seqno, before, after);
      Push(c);
      return Ok(c.id);
    }

    method AcknowledgeOutside(disk: Disk, path: Path, env: Env) returns (r: Result<(), FsError>)
      requires Valid()
      modifies this, disk`seqno
      ensures var o := Acknowledged(old(View()), old(disk.At(path)), env);
              r == o.result && View() == o.log && disk.At(path) == o.site
      ensures disk.files == old(disk.files)
      ensures Valid()
    {
      assert ValidLog(Acknowledged(View(), disk.At(path), env).log) by {
        AcknowledgeExtends(View(), disk.At(path), env);
      }
      var expected := Expected();
      if expected.None? {
        return Ok(());
      }
      if seen.Some? && seen.value.Still(disk.At(path).file) {
        return Ok(());
      }
      if env.readFails {
        return Err(Io);
      }
      var stamp, noted := StampOf(disk.At(path).Content()), disk.At(path).Noted();
      if stamp == expected.value {
        seen := noted;
        return Ok(());
      }
      var id := |changes| + 1;
      var seqno := disk.NextSeqno();
      Push(Change(id, current, Outside, Splice(0, "", ""), false, expected.value, stamp, seqno));
      seen := noted;
      return Ok(());
    }

    method AcknowledgeSeen(disk: Disk, path: Path, digest: Bytes, env: Env) returns (r: Result<(), FsError>)
      requires Valid()
      modifies this, disk`seqno
      ensures var o := AcknowledgedSeen(old(View()), old(disk.At(path)), digest, env);
              r == o.result && View() == o.log && disk.At(path) == o.site
      ensures disk.files == old(disk.files)
      ensures Valid()
    {
      assert ValidLog(Acknowledged(View(), disk.At(path), env).log) by {
        AcknowledgeExtends(View(), disk.At(path), env);
      }
      var expected := Expected();
      if expected.None? || expected.value == Some(Stamp(digest)) {
        return Ok(());
      }
      if env.readFails {
        return Err(Io);
      }
      if StampOf(disk.At(path).Content()) != Some(Stamp(digest)) {
        return Ok(());
      }
      r := AcknowledgeOutside(disk, path, env);
    }

    method MovedSince(disk: Disk, path: Path, mark: nat, readFails: bool) returns (r: Option<Moved>)
      requires Valid()
      ensures r == MovedAfter(View(), disk.At(path), mark, readFails)
    {
      var k := 0;
      while k < |moves| && moves[k].seqno <= mark
        invariant 0 <= k <= |moves|
        invariant FirstAfter(moves, mark) == FirstAfter(moves[k..], mark)
      {
        assert moves[k..][1..] == moves[k + 1..];
        k := k + 1;
      }
      if k == |moves| || moves[k].from == current || readFails {
        return None;
      }
      var from := moves[k].from;
      var now := disk.At(path).Content();
      if Expected() != Some(StampOf(now)) {
        return None;
      }
      var image := ImageAt(disk, path, from, false);
      var before: Option<Snapshot>;
      if image.Ok? {
        before := SnapshotOf(image.value);
      } else {
        var stamp := if from == 0 then changes[0].before else changes[from - 1].after;
        before := if stamp.Some? then Some(Snapshot(0, stamp.value.digest, None)) else None;
      }
      return Some(Moved(current, before, SnapshotOf(now)));
    }
  }
}
