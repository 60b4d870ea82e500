/** Cached scans agree with full ones, and what scans report is a journal. */
module ScanProofs {
  import opened Base
  import opened Scans

  // ---------- the files while scans run ----------

  datatype DiskFile = DiskFile(bytes: Bytes, modified: Option<int>) {
    function StatOf(): Stat {
      Stat(|bytes|, modified)
    }
  }

  /** The files at each instant, and the clock. */
  datatype World = World(files: nat -> map<Path, DiskFile>, clock: nat -> int) {
    function At(n: nat, path: Path): Option<DiskFile> {
      if path in files(n) then Some(files(n)[path]) else None
    }
  }

  /** The clock never goes back, and a write sets a modification time less than
      two seconds old. */
  ghost predicate Timely(w: World) {
    && (forall n: nat :: w.clock(n) <= w.clock(n + 1))
    && (forall n: nat, path :: WrittenTimely(w, n, path))
  }

  ghost predicate WrittenTimely(w: World, n: nat, path: Path) {
    var now := w.At(n + 1, path);
    now.Some? && now != w.At(n, path) && now.value.modified.Some? ==>
      now.value.modified.value > w.clock(n) - RACY_WINDOW
  }

  /** A file that is not as it was has been written since. */
  lemma {:induction false} ChangedSince(w: World, m: nat, n: nat, path: Path)
    requires Timely(w) && m <= n
    ensures w.clock(m) <= w.clock(n)
    ensures var now := w.At(n, path);
            now.Some? && now != w.At(m, path) && now.value.modified.Some? ==>
              now.value.modified.value > w.clock(m) - RACY_WINDOW
    decreases n
  {
    if m < n {
      ChangedSince(w, m, n - 1, path);
      assert WrittenTimely(w, n - 1, path);
      assert w.clock(n - 1) <= w.clock(n - 1 + 1);
    }
  }

  /** The scan's stat of a file and its reading of it, each at its instant. */
  datatype When = When(stat: nat, read: nat)

  predicate Looked(w: World, look: Look, t: When) {
    && t.stat <= t.read
    && look.stat == (if w.At(t.stat, look.path).Some? then Some(w.At(t.stat, look.path).value.StatOf()) else None)
    && look.bytes == (if w.At(t.read, look.path).Some? then Some(w.At(t.read, look.path).value.bytes) else None)
  }

  /** A scan that starts no earlier than `since` and is over by `until`. */
  predicate ScannedIn(w: World, looks: seq<Look>, times: seq<When>, started: int, since: nat, until: nat) {
    && |times| == |looks|
    && forall k | 0 <= k < |looks| ::
         && since <= times[k].stat && times[k].read <= until
         && started <= w.clock(times[k].stat)
         && Looked(w, looks[k], times[k])
  }

  /** From instant `n` on, the entry has the content of any file at its path with
      its modification time, if it may be used without reading. */
  ghost predicate Trusted(w: World, path: Path, e: Entry, n: nat) {
    !e.racy ==> forall j | j >= n && w.At(j, path).Some? && w.At(j, path).value.modified == e.modified ::
                  w.At(j, path).value.bytes == e.digest
  }

  ghost predicate AllTrusted(w: World, files: Files, n: nat) {
    forall path | path in files :: Trusted(w, path, files[path], n)
  }

  /** A file read is trusted from then on: what changes it later leaves another
      modification time, and if it was too young to tell it is read again. */
  lemma ReadIsTrusted(w: World, look: Look, t: When, started: int, max: nat)
    requires Timely(w) && Looked(w, look, t) && look.stat.Some? && look.bytes.Some?
    requires started <= w.clock(t.stat)
    ensures Trusted(w, look.path, Read(look.stat.value, look.bytes.value, look.room, started, max), t.read)
  {
    var e := Read(look.stat.value, look.bytes.value, look.room, started, max);
    ChangedSince(w, t.stat, t.read, look.path);
    hide Timely;
    forall j | j >= t.read && !e.racy && w.At(j, look.path).Some? && w.At(j, look.path).value.modified == e.modified
      ensures w.At(j, look.path).value.bytes == e.digest
    {
      ChangedSince(w, t.read, j, look.path);
    }
  }

  lemma TrustedLater(w: World, path: Path, e: Entry, m: nat, n: nat)
    requires Trusted(w, path, e, m) && m <= n
    ensures Trusted(w, path, e, n)
  {
  }

  lemma {:induction false} ScanKeepsTrust(
    w: World, previous: Files, looks: seq<Look>, times: seq<When>, started: int, max: nat, since: nat, until: nat)
    requires Timely(w) && since <= until && ScannedIn(w, looks, times, started, since, until)
    requires AllTrusted(w, previous, since)
    ensures AllTrusted(w, Scanned(previous, looks, started, max), until)
    decreases |looks|
  {
    hide Timely, Trusted, Looked, Read;
    if looks != [] {
      var last := |looks| - 1;
      var look := looks[last];
      ScanKeepsTrust(w, previous, looks[..last], times[..last], started, max, since, until);
      var entry := EntryOf(Get(previous, look.path), look, started, max);
      if entry.Some? {
        assert Looked(w, look, times[last]);
        if Serves(Get(previous, look.path), look.stat.value) {
          TrustedLater(w, look.path, entry.value, since, until);
        } else {
          ReadIsTrusted(w, look, times[last], started, max);
          TrustedLater(w, look.path, entry.value, times[last].read, until);
        }
      }
    }
  }

  /** What an entry says is what its file held when the scan looked at it. */
  lemma LookIsTrue(w: World, previous: Files, look: Look, t: When, started: int, max: nat, since: nat)
    requires Looked(w, look, t) && AllTrusted(w, previous, since) && since <= t.stat
    ensures var e, file := EntryOf(Get(previous, look.path), look, started, max), w.At(t.stat, look.path);
            && (e.Some? ==>
                  && file.Some? && e.value.modified == file.value.modified
                  && (e.value.digest == file.value.bytes || Some(e.value.digest) == look.bytes))
            && (w.At(t.read, look.path) == file ==>
                  e.Some? == file.Some? && (e.Some? ==> e.value.digest == file.value.bytes))
  {
    hide Read;
    var known := Get(previous, look.path);
    if look.stat.Some? && Serves(known, look.stat.value) {
      assert Trusted(w, look.path, known.value, since);
    }
    if look.stat.Some? && look.bytes.Some? {
      ReadSays(look, started, max);
    }
  }

  lemma ReadSays(look: Look, started: int, max: nat)
    requires look.stat.Some? && look.bytes.Some?
    ensures var e := Read(look.stat.value, look.bytes.value, look.room, started, max);
            e.digest == look.bytes.value && e.modified == look.stat.value.modified
  {
  }

  function Digests(files: Files): map<Path, Bytes> {
    map path | path in files :: files[path].digest
  }

  /** No file changed between a scan's stat of it and its reading it. */
  predicate Still(w: World, looks: seq<Look>, times: seq<When>) {
    |times| == |looks| &&
    forall k | 0 <= k < |looks| :: w.At(times[k].stat, looks[k].path) == w.At(times[k].read, looks[k].path)
  }

  /** A scan that uses what it knows finds just what reading every file finds. */
  lemma {:induction false} CachedIsFull(
    w: World, previous: Files, looks: seq<Look>, times: seq<When>, started: int, max: nat, since: nat, until: nat)
    requires ScannedIn(w, looks, times, started, since, until) && Still(w, looks, times)
    requires AllTrusted(w, previous, since)
    ensures Digests(Scanned(previous, looks, started, max)) == Digests(Scanned(map[], looks, started, max))
    decreases |looks|
  {
    hide Looked, AllTrusted, EntryOf;
    if looks != [] {
      var last := |looks| - 1;
      var look := looks[last];
      CachedIsFull(w, previous, looks[..last], times[..last], started, max, since, until);
      assert Looked(w, look, times[last]);
      LookIsTrue(w, previous, look, times[last], started, max, since);
      assert AllTrusted(w, map[], since) by { NoneTrusted(w, since); }
      LookIsTrue(w, map[], look, times[last], started, max, since);
      var a, b := Scanned(previous, looks[..last], started, max), Scanned(map[], looks[..last], started, max);
      DigestsPut(a, look.path, EntryOf(Get(previous, look.path), look, started, max));
      DigestsPut(b, look.path, EntryOf(Get(map[], look.path), look, started, max));
    }
  }

  lemma NoneTrusted(w: World, n: nat)
    ensures AllTrusted(w, map[], n)
  {
  }

  lemma DigestsPut(files: Files, path: Path, e: Option<Entry>)
    ensures Digests(if e.Some? then files[path := e.value] else files) ==
            if e.Some? then Digests(files)[path := e.value.digest] else Digests(files)
  {
  }

  // ---------- scan after scan ----------

  datatype Scan = Scan(looks: seq<Look>, times: seq<When>, started: int, until: nat)

  /** What the last of some scans holds. */
  function After(first: Files, scans: seq<Scan>, max: nat): Files {
    if scans == [] then first
    else
      var last := scans[|scans| - 1];
      Scanned(After(first, scans[..|scans| - 1], max), last.looks, last.started, max)
  }

  function Until(start: nat, scans: seq<Scan>): nat {
    if scans == [] then start else scans[|scans| - 1].until
  }

  /** Each scan comes after the one before it. */
  predicate InTurn(w: World, start: nat, scans: seq<Scan>)
    decreases |scans|
  {
    scans == [] ||
    (var front, last := scans[..|scans| - 1], scans[|scans| - 1];
     && InTurn(w, start, front)
     && Until(start, front) <= last.until
     && ScannedIn(w, last.looks, last.times, last.started, Until(start, front), last.until))
  }

  lemma {:induction false} ScansKeepTrust(w: World, start: nat, first: Files, scans: seq<Scan>, max: nat)
    requires Timely(w) && InTurn(w, start, scans) && AllTrusted(w, first, start)
    ensures AllTrusted(w, After(first, scans, max), Until(start, scans))
    decreases |scans|
  {
    hide Timely, AllTrusted, ScannedIn, Scanned;
    if scans != [] {
      var front, last := scans[..|scans| - 1], scans[|scans| - 1];
      ScansKeepTrust(w, start, first, front, max);
      ScanKeepsTrust(w, After(first, front, max), last.looks, last.times, last.started, max,
                     Until(start, front), last.until);
    }
  }

  /** After any scans, the next finds exactly what reading every file again would,
      though it reads only those whose time or size changed and those too young
      to tell. */
  lemma EveryScanIsFull(w: World, start: nat, scans: seq<Scan>, next: Scan, max: nat)
    requires Timely(w) && InTurn(w, start, scans + [next]) && Still(w, next.looks, next.times)
    ensures Digests(Scanned(After(map[], scans, max), next.looks, next.started, max)) ==
            Digests(Scanned(map[], next.looks, next.started, max))
  {
    hide Timely, AllTrusted, ScannedIn, Scanned, Still, After;
    var all := scans + [next];
    assert all[..|scans|] == scans;
    NoneTrusted(w, start);
    ScansKeepTrust(w, start, map[], scans, max);
    assert all[|scans|] == next;
    CachedIsFull(w, After(map[], scans, max), next.looks, next.times, next.started, max,
                 Until(start, scans), next.until);
  }

  // ---------- reports are a journal ----------

  function DigestAt(d: map<Path, Bytes>, path: Path): Option<Bytes> {
    if path in d then Some(d[path]) else None
  }

  function DigestIn(s: Option<Snapshot>): Option<Bytes> {
    if s.Some? then Some(s.value.digest) else None
  }

  function Put(d: map<Path, Bytes>, path: Path, digest: Option<Bytes>): map<Path, Bytes> {
    if digest.Some? then d[path := digest.value] else d - {path}
  }

  /** Replays changes on what is known, as long as each starts from it. */
  function Replayed(d: map<Path, Bytes>, changes: seq<Change>): Option<map<Path, Bytes>>
    decreases |changes|
  {
    if changes == [] then Some(d)
    else
      var c := changes[0];
      if DigestIn(c.before) != DigestAt(d, c.path) then None
      else Replayed(Put(d, c.path, DigestIn(c.after)), changes[1..])
  }

  /** `d` has the new state of every path not among `changes` from `k` on. */
  ghost predicate Halfway(previous: Files, current: Files, changes: seq<Change>, k: nat, d: map<Path, Bytes>)
    requires k <= |changes|
  {
    forall path :: DigestAt(d, path) ==
      if Lists(changes[k..], path) then DigestAt(Digests(previous), path) else DigestAt(Digests(current), path)
  }

  lemma {:induction false} ReplayFrom(
    previous: Files, current: Files, changes: seq<Change>, k: nat, d: map<Path, Bytes>)
    requires Reports(previous, current, changes) && k <= |changes| && Halfway(previous, current, changes, k, d)
    ensures Replayed(d, changes[k..]) == Some(Digests(current))
    decreases |changes| - k
  {
    hide Reports, Differs;
    if k == |changes| {
      assert forall path :: DigestAt(d, path) == DigestAt(Digests(current), path);
      SameMaps(d, Digests(current));
    } else {
      var c := changes[k];
      assert changes[k..][0] == c && changes[k..][1..] == changes[k + 1..];
      assert c == ChangeAt(previous, current, c.path) by { ReportsAt(previous, current, changes, k); }
      hide Replayed;
      var next := Put(d, c.path, DigestIn(c.after));
      assert Lists(changes[k..], c.path);
      forall path
        ensures DigestAt(next, path) ==
          if Lists(changes[k + 1..], path) then DigestAt(Digests(previous), path) else DigestAt(Digests(current), path)
      {
        ListsNext(previous, current, changes, k, path);
      }
      ReplayFrom(previous, current, changes, k + 1, next);
      assert Replayed(d, changes[k..]) == Replayed(next, changes[k + 1..]) by { ReplayOne(d, changes[k..]); }
    }
  }

  lemma ReplayOne(d: map<Path, Bytes>, changes: seq<Change>)
    requires changes != [] && DigestIn(changes[0].before) == DigestAt(d, changes[0].path)
    ensures Replayed(d, changes) == Replayed(Put(d, changes[0].path, DigestIn(changes[0].after)), changes[1..])
  {
  }

  lemma SameMaps(a: map<Path, Bytes>, b: map<Path, Bytes>)
    requires forall path :: DigestAt(a, path) == DigestAt(b, path)
    ensures a == b
  {
    forall path ensures path in a <==> path in b {
      assert DigestAt(a, path) == DigestAt(b, path);
    }
    forall path | path in a ensures a[path] == b[path] {
      assert DigestAt(a, path) == DigestAt(b, path);
    }
  }

  lemma ReportsAt(previous: Files, current: Files, changes: seq<Change>, k: nat)
    requires Reports(previous, current, changes) && k < |changes|
    ensures changes[k] == ChangeAt(previous, current, changes[k].path)
  {
    hide Differs;
    assert changes[k] in changes;
  }

  /** A path is listed from `k` on if it is the one at `k` or listed after; never
      both. */
  lemma ListsNext(previous: Files, current: Files, changes: seq<Change>, k: nat, path: Path)
    requires Reports(previous, current, changes) && k < |changes|
    ensures Lists(changes[k..], path) <==> path == changes[k].path || Lists(changes[k + 1..], path)
    ensures path == changes[k].path ==> !Lists(changes[k + 1..], path)
  {
    hide Differs, ChangeAt;
    var now, later := changes[k..], changes[k + 1..];
    assert forall i | 0 <= i < |later| :: later[i] == now[i + 1];
    assert now[0] == changes[k];
    if path == changes[k].path && Lists(later, path) {
      var i :| 0 <= i < |later| && later[i].path == path;
      assert Before(changes[k].path, changes[k + 1 + i].path);
      NotBeforeItself(path);
    }
  }

  lemma {:induction false} NotBeforeItself(path: Path)
    ensures !Before(path, path)
  {
    if path != [] {
      NotBeforeItself(path[1..]);
    }
  }

  lemma DifferingIsListed(previous: Files, current: Files, changes: seq<Change>, path: Path)
    requires Reports(previous, current, changes) && Differs(previous, current, path)
    ensures Lists(changes, path)
  {
    var c := ChangeAt(previous, current, path);
    assert c in changes;
    var k :| 0 <= k < |changes| && changes[k] == c;
  }

  lemma UnlistedAgrees(previous: Files, current: Files, changes: seq<Change>, path: Path)
    requires Reports(previous, current, changes) && !Lists(changes, path)
    ensures DigestAt(Digests(previous), path) == DigestAt(Digests(current), path)
  {
    if Differs(previous, current, path) {
      DifferingIsListed(previous, current, changes, path);
    }
  }

  /** What a scan reports takes what was known before it to what it found. */
  lemma ReportReplays(previous: Files, current: Files, changes: seq<Change>)
    requires Reports(previous, current, changes)
    ensures Replayed(Digests(previous), changes) == Some(Digests(current))
  {
    hide Reports, Digests;
    assert changes[0..] == changes;
    forall path | !Lists(changes, path)
      ensures DigestAt(Digests(previous), path) == DigestAt(Digests(current), path)
    {
      UnlistedAgrees(previous, current, changes, path);
    }
    ReplayFrom(previous, current, changes, 0, Digests(previous));
  }

  /** All that the scans after the first report, in order. */
  function Journal(reports: seq<seq<Change>>): seq<Change> {
    if reports == [] then [] else Journal(reports[..|reports| - 1]) + reports[|reports| - 1]
  }

  ghost predicate AllReported(first: Files, scans: seq<Scan>, max: nat, reports: seq<seq<Change>>) {
    && |reports| == |scans|
    && forall k | 0 <= k < |scans| ::
         Reports(After(first, scans[..k], max), After(first, scans[..k + 1], max), reports[k])
  }

  lemma {:induction false} ReplaysInTurn(d: map<Path, Bytes>, a: seq<Change>, b: seq<Change>)
    ensures Replayed(d, a + b) == if Replayed(d, a).None? then None else Replayed(Replayed(d, a).value, b)
    decreases |a|
  {
    if a == [] {
      assert a + b == b;
    } else {
      assert (a + b)[0] == a[0] && (a + b)[1..] == a[1..] + b;
      ReplaysInTurn(Put(d, a[0].path, DigestIn(a[0].after)), a[1..], b);
    }
  }

  /** Over any scans, each change reported starts from the state last known, and
      together they lead from the first scan to the last. */
  lemma {:induction false} JournalReplays(first: Files, scans: seq<Scan>, max: nat, reports: seq<seq<Change>>)
    requires AllReported(first, scans, max, reports)
    ensures Replayed(Digests(first), Journal(reports)) == Some(Digests(After(first, scans, max)))
    decreases |scans|
  {
    hide Reports, Replayed, Digests, Scanned;
    if scans == [] {
      assert Replayed(Digests(first), []) == Some(Digests(first)) by { ReplayNone(Digests(first)); }
    } else {
      var n := |scans| - 1;
      assert forall k | 0 <= k <= n :: scans[..n][..k] == scans[..k];
      assert scans[..n + 1] == scans;
      JournalReplays(first, scans[..n], max, reports[..n]);
      assert Reports(After(first, scans[..n], max), After(first, scans[..n + 1], max), reports[n]);
      ReportReplays(After(first, scans[..n], max), After(first, scans, max), reports[n]);
      ReplaysInTurn(Digests(first), Journal(reports[..n]), reports[n]);
    }
  }

  lemma ReplayNone(d: map<Path, Bytes>)
    ensures Replayed(d, []) == Some(d)
  {
  }
}
