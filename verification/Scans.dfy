/** Scans of a folder: what each keeps, and what changed between two. */
module Scans {
  import opened Base

  /** Nanoseconds. */
  const RACY_WINDOW := 2_000_000_000
  const TOO_LARGE_FOR := 300_000_000_000
  const IDLE_FOR := 1_800_000_000_000
  const BINARY_PROBE := 8192

  /** What a stat tells of a file that can be tracked. */
  datatype Stat = Stat(size: nat, modified: Option<int>)

  /** What a scan would see of one path: its stat, what reading it gives, and
      whether the content store has room. */
  datatype Look = Look(path: Path, stat: Option<Stat>, bytes: Option<Bytes>, room: bool)

  /** A digest stands for the bytes it was made from. */
  datatype Entry = Entry(size: nat, modified: Option<int>, digest: Bytes, content: Option<Bytes>, racy: bool) {
    function Snap(): Snapshot {
      Snapshot(size, digest, content)
    }
  }

  datatype Snapshot = Snapshot(size: nat, digest: Bytes, content: Option<Bytes>)

  datatype Change = Change(path: Path, before: Option<Snapshot>, after: Option<Snapshot>)

  type Files = map<Path, Entry>

  datatype Folder = Folder(files: Files, used: int)

  // ---------- one scan ----------

  predicate Binary(bytes: Bytes) {
    0 as char in bytes[..if |bytes| < BINARY_PROBE then |bytes| else BINARY_PROBE]
  }

  /** The entry reading makes. A file that grew past the limit since its stat
      keeps no content. */
  function Read(stat: Stat, bytes: Bytes, room: bool, started: int, max: nat): Entry {
    Entry(
      |bytes|, stat.modified, bytes,
      if stat.size <= max && |bytes| <= max && !Binary(bytes) && room then Some(bytes) else None,
      stat.modified.None? || stat.modified.value + RACY_WINDOW >= started)
  }

  /** The known entry serves without reading. */
  predicate Serves(known: Option<Entry>, stat: Stat) {
    known.Some? && !known.value.racy && known.value.size == stat.size && known.value.modified == stat.modified
  }

  function EntryOf(known: Option<Entry>, look: Look, started: int, max: nat): Option<Entry> {
    if look.stat.None? then None
    else if Serves(known, look.stat.value) then known
    else if look.bytes.None? then None
    else Some(Read(look.stat.value, look.bytes.value, look.room, started, max))
  }

  function Get(files: Files, path: Path): Option<Entry> {
    if path in files then Some(files[path]) else None
  }

  function Scanned(previous: Files, looks: seq<Look>, started: int, max: nat): Files {
    if looks == [] then map[]
    else
      var look := looks[|looks| - 1];
      var files := Scanned(previous, looks[..|looks| - 1], started, max);
      var entry := EntryOf(Get(previous, look.path), look, started, max);
      if entry.Some? then files[look.path := entry.value] else files
  }

  // ---------- what differs ----------

  /** The order of paths: component by component. */
  predicate Before(a: Path, b: Path) {
    b != [] && (a == [] || a[0] < b[0] || (a[0] == b[0] && Before(a[1..], b[1..])))
  }

  lemma {:induction false} BeforeTotal(a: Path, b: Path)
    ensures Before(a, b) || Before(b, a) || a == b
  {
    if a != [] && b != [] && a[0] == b[0] {
      BeforeTotal(a[1..], b[1..]);
      assert a[1..] == b[1..] ==> a == [a[0]] + a[1..] && b == [b[0]] + b[1..];
    }
  }

  lemma {:induction false} BeforeTrans(a: Path, b: Path, c: Path)
    requires Before(a, b) && Before(b, c)
    ensures Before(a, c)
  {
    if a != [] && a[0] == b[0] && b[0] == c[0] {
      BeforeTrans(a[1..], b[1..], c[1..]);
    }
  }

  predicate Sorted(changes: seq<Change>) {
    forall i, j | 0 <= i < j < |changes| :: Before(changes[i].path, changes[j].path)
  }

  predicate DistinctPaths(changes: seq<Change>) {
    forall i, j | 0 <= i < j < |changes| :: changes[i].path != changes[j].path
  }

  predicate Lists(changes: seq<Change>, path: Path) {
    exists k | 0 <= k < |changes| :: changes[k].path == path
  }

  function Inserted(c: Change, changes: seq<Change>): (r: seq<Change>)
    requires Sorted(changes) && !Lists(changes, c.path)
    ensures Sorted(r) && |r| == |changes| + 1
    ensures forall x :: x in r <==> x in changes || x == c
  {
    if changes == [] then [c]
    else
      BeforeTotal(c.path, changes[0].path);
      assert forall k | 0 <= k < |changes[1..]| :: changes[1..][k] == changes[k + 1];
      if Before(c.path, changes[0].path) then
        assert forall k | 0 < k < |changes| :: Before(c.path, changes[k].path) by {
          forall k | 0 < k < |changes| ensures Before(c.path, changes[k].path) {
            BeforeTrans(c.path, changes[0].path, changes[k].path);
          }
        }
        [c] + changes
      else
        var rest := Inserted(c, changes[1..]);
        assert forall x | x in rest :: Before(changes[0].path, x.path);
        [changes[0]] + rest
  }

  function SortByPath(changes: seq<Change>): (r: seq<Change>)
    requires DistinctPaths(changes)
    ensures Sorted(r)
    ensures forall x :: x in r <==> x in changes
  {
    if changes == [] then []
    else
      var last := |changes| - 1;
      assert changes == changes[..last] + [changes[last]];
      var front := SortByPath(changes[..last]);
      LastIsNew(changes, front);
      Inserted(changes[last], front)
  }

  lemma LastIsNew(changes: seq<Change>, front: seq<Change>)
    requires changes != [] && DistinctPaths(changes)
    requires forall x :: x in front <==> x in changes[..|changes| - 1]
    ensures !Lists(front, changes[|changes| - 1].path)
  {
    var last := |changes| - 1;
    forall k | 0 <= k < |front| ensures front[k].path != changes[last].path {
      assert front[k] in front && front[k] in changes[..last];
      var i :| 0 <= i < last && changes[i] == front[k];
    }
  }

  function SnapOf(files: Files, path: Path): Option<Snapshot> {
    if path in files then Some(files[path].Snap()) else None
  }

  /** The file is in one scan only, or its content differs. */
  predicate Differs(previous: Files, current: Files, path: Path) {
    if path in previous && path in current then previous[path].digest != current[path].digest
    else path in previous || path in current
  }

  function ChangeAt(previous: Files, current: Files, path: Path): Change {
    Change(path, SnapOf(previous, path), SnapOf(current, path))
  }

  /** What a comparison reports: in order, exactly the paths that differ, each with its
      state in both scans. */
  ghost predicate Reports(previous: Files, current: Files, changes: seq<Change>) {
    && Sorted(changes)
    && forall c :: c in changes <==>
                   Differs(previous, current, c.path) && c == ChangeAt(previous, current, c.path)
  }

  /** Among `done`, exactly the paths that differ are listed, each once. */
  ghost predicate DiffOf(previous: Files, current: Files, done: set<Path>, changes: seq<Change>) {
    && DistinctPaths(changes)
    && forall c :: c in changes <==>
                   c.path in done && Differs(previous, current, c.path) && c == ChangeAt(previous, current, c.path)
  }

  lemma DiffMore(previous: Files, current: Files, done: set<Path>, changes: seq<Change>, path: Path)
    requires DiffOf(previous, current, done, changes) && path !in done
    ensures DiffOf(previous, current, done + {path},
                   if Differs(previous, current, path) then changes + [ChangeAt(previous, current, path)] else changes)
  {
    hide Differs;
    assert forall k | 0 <= k < |changes| :: changes[k] in changes && changes[k].path != path;
  }

  /** The paths that differ, in order, each with its state in both scans. */
  method Compare(previous: Files, current: Files) returns (changes: seq<Change>)
    ensures Reports(previous, current, changes)
  {
    hide DiffOf, Sorted, DistinctPaths;
    changes := [];
    var todo := previous.Keys;
    NothingDone(previous, current);
    while todo != {}
      invariant todo <= previous.Keys
      invariant DiffOf(previous, current, previous.Keys - todo, changes)
    {
      var path :| path in todo;
      DiffMore(previous, current, previous.Keys - todo, changes, path);
      if !(path in current && current[path].digest == previous[path].digest) {
        changes := changes + [ChangeAt(previous, current, path)];
      }
      assert previous.Keys - (todo - {path}) == (previous.Keys - todo) + {path};
      todo := todo - {path};
    }
    todo := current.Keys;
    var all := previous.Keys + current.Keys;
    assert previous.Keys - {} == previous.Keys + (current.Keys - todo);
    while todo != {}
      invariant todo <= current.Keys
      invariant DiffOf(previous, current, previous.Keys + (current.Keys - todo), changes)
    {
      var path :| path in todo;
      ghost var done := previous.Keys + (current.Keys - todo);
      if path !in previous {
        DiffMore(previous, current, done, changes, path);
        changes := changes + [ChangeAt(previous, current, path)];
        assert previous.Keys + (current.Keys - (todo - {path})) == done + {path};
      } else {
        assert previous.Keys + (current.Keys - (todo - {path})) == done;
      }
      todo := todo - {path};
    }
    assert previous.Keys + (current.Keys - {}) == all;
    AllDone(previous, current, changes);
    changes := SortByPath(changes);
  }

  lemma NothingDone(previous: Files, current: Files)
    ensures DiffOf(previous, current, previous.Keys - previous.Keys, [])
  {
  }

  lemma AllDone(previous: Files, current: Files, changes: seq<Change>)
    requires DiffOf(previous, current, previous.Keys + current.Keys, changes)
    ensures DistinctPaths(changes)
    ensures forall c :: c in changes <==>
                        Differs(previous, current, c.path) && c == ChangeAt(previous, current, c.path)
  {
  }

  // ---------- the baseline ----------

  function KeptFolders(roots: map<Path, Folder>, now: int): map<Path, Folder> {
    map r | r in roots && now - roots[r].used < IDLE_FOR :: roots[r]
  }

  /** What the last scan of each folder found and when it ran, and when folders were too
      large for one. */
  datatype Known = Known(roots: map<Path, Folder>, tooLarge: map<Path, int>) {
    /** The folder was scanned in the last half hour. */
    predicate Recent(root: Path, now: int) {
      root in roots && now - roots[root].used < 30 * 60 * 1_000_000_000
    }

    /** The folder was too large in the last five minutes. */
    predicate Large(root: Path, now: int) {
      root in tooLarge && now - tooLarge[root] < 5 * 60 * 1_000_000_000
    }
  }

  /** A folder is forgotten exactly when it was not scanned in the last half hour. */
  ghost predicate Keeps(before: Known, after: Known, root: Path, now: int) {
    && (root in after.roots <==> before.Recent(root, now))
    && (root in after.roots ==> after.roots[root] == before.roots[root])
  }

  /** A scan of `root`, and what it returned. A folder that was too large is let be for a
      while. One scanned in the last half hour is compared with what that scan found, any
      other treated as new. Other folders are left alone, but for those to forget. */
  ghost predicate Refreshed(
    before: Known, after: Known, root: Path, walked: Option<seq<Look>>, now: int, started: int, max: nat,
    r: Option<seq<Change>>)
  {
    && (forall other | other != root :: Keeps(before, after, other, now))
    && (forall other | other != root ::
          && (other in after.tooLarge <==> other in before.tooLarge)
          && (other in after.tooLarge ==> after.tooLarge[other] == before.tooLarge[other]))
    && if before.Large(root, now) then
         r.None? && Keeps(before, after, root, now)
         && root in after.tooLarge && after.tooLarge[root] == before.tooLarge[root]
       else if walked.None? then
         r.None? && Keeps(before, after, root, now) && root in after.tooLarge && after.tooLarge[root] == now
       else
         var previous := if before.Recent(root, now) then before.roots[root].files else map[];
         && root !in after.tooLarge
         && root in after.roots
         && after.roots[root] == Folder(Scanned(previous, walked.value, started, max), now)
         && r.Some?
         && if before.Recent(root, now) then Reports(previous, after.roots[root].files, r.value) else r.value == []
  }

  function FilesOf(roots: map<Path, Folder>, root: Path): Option<Files> {
    if root in roots then Some(roots[root].files) else None
  }

  class Baseline {
    var roots: map<Path, Folder>
    var tooLarge: map<Path, int>

    ghost function View(): Known
      reads this
    {
      Known(roots, tooLarge)
    }

    /** Scans `root`. `walked` is what the walk lists, nothing when that is too
        many files. Returns how the folder differs from its last scan, or nothing
        when it is too large to scan. */
    method Refresh(root: Path, walked: Option<seq<Look>>, now: int, started: int, max: nat)
      returns (r: Option<seq<Change>>)
      modifies this
      ensures Refreshed(old(View()), View(), root, walked, now, started, max, r)
    {
      hide Scanned, Reports;
      roots := KeptFolders(roots, now);
      if root in tooLarge && now - tooLarge[root] < TOO_LARGE_FOR {
        return None;
      }
      if walked.None? {
        tooLarge := tooLarge[root := now];
        return None;
      }
      tooLarge := tooLarge - {root};
      var previous := FilesOf(roots, root);
      var files := ScanFiles(previous.GetOr(map[]), walked.value, started, max);
      var changes := [];
      if previous.Some? {
        changes := Compare(previous.value, files);
      }
      roots := roots[root := Folder(files, now)];
      return Some(changes);
    }
  }

  method ScanFiles(previous: Files, looks: seq<Look>, started: int, max: nat) returns (files: Files)
    ensures files == Scanned(previous, looks, started, max)
  {
    files := map[];
    var k: nat := 0;
    while k < |looks|
      invariant k <= |looks|
      invariant files == Scanned(previous, looks[..k], started, max)
    {
      var look := looks[k];
      assert looks[..k + 1][..k] == looks[..k];
      k := k + 1;
      if look.stat.None? {
        continue;
      }
      var known := Get(previous, look.path);
      if Serves(known, look.stat.value) {
        files := files[look.path := known.value];
      } else if look.bytes.Some? {
        files := files[look.path := Read(look.stat.value, look.bytes.value, look.room, started, max)];
      }
    }
    assert looks[..k] == looks;
  }
}
