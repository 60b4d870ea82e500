/** What scans keep of files, and what one folder's scans report over a run of the class. */
module ScanFacts {
  import opened Base
  import opened Scans
  import opened ScanProofs
  import Timelines

  // ---------- entries ----------

  /** Content is kept of a file that was small when looked at and when read, while there is
      room, and that has no zero byte among its first 8192. An entry is racy when its time
      is unknown, or not two seconds older than the scan. */
  lemma ReadExactly(stat: Stat, bytes: Bytes, room: bool, started: int, max: nat)
    ensures var e := Read(stat, bytes, room, started, max);
            && e.size == |bytes| && e.digest == bytes && e.modified == stat.modified
            && (e.content.Some? <==>
                  && stat.size <= max && |bytes| <= max && room
                  && forall k | 0 <= k < |bytes| && k < 8192 :: bytes[k] as int != 0)
            && (e.content.Some? ==> e.content.value == bytes)
            && (e.racy <==> stat.modified.None? || started - stat.modified.value <= 2 * 1_000_000_000)
  {
    var probe := bytes[..if |bytes| < BINARY_PROBE then |bytes| else BINARY_PROBE];
    assert forall k | 0 <= k < |probe| :: probe[k] == bytes[k];
    assert Binary(bytes) <==> exists k | 0 <= k < |probe| :: probe[k] == 0 as char;
  }

  /** A file whose size and time are those of an entry that is not racy is not read. */
  lemma KnownIsNotRead(known: Entry, look: Look, started: int, max: nat)
    requires !known.racy && look.stat == Some(Stat(known.size, known.modified))
    ensures EntryOf(Some(known), look, started, max) == Some(known)
  {
  }

  /** The entry's size, digest and content are of the same bytes. */
  predicate OfOneFile(e: Entry) {
    e.size == |e.digest| && (e.content.Some? ==> e.content.value == e.digest)
  }

  predicate AllOfOneFile(files: Files) {
    forall path | path in files :: OfOneFile(files[path])
  }

  lemma {:induction false} ScanKeepsContents(previous: Files, looks: seq<Look>, started: int, max: nat)
    requires AllOfOneFile(previous)
    ensures AllOfOneFile(Scanned(previous, looks, started, max))
  {
    if looks != [] {
      var last := |looks| - 1;
      var look := looks[last];
      ScanKeepsContents(previous, looks[..last], started, max);
      if look.stat.Some? && look.bytes.Some? {
        ReadExactly(look.stat.value, look.bytes.value, look.room, started, max);
      }
      hide Read;
      var entry := EntryOf(Get(previous, look.path), look, started, max);
      assert entry.Some? ==> OfOneFile(entry.value);
    }
  }

  /** Over any scans, what an entry kept is the content it digests. */
  lemma {:induction false} ScansKeepContents(scans: seq<Scan>, max: nat)
    ensures AllOfOneFile(After(map[], scans, max))
  {
    if scans != [] {
      var last := scans[|scans| - 1];
      ScansKeepContents(scans[..|scans| - 1], max);
      ScanKeepsContents(After(map[], scans[..|scans| - 1], max), last.looks, last.started, max);
    }
  }

  function ToHistory(s: Option<Snapshot>): Option<Timelines.Snapshot> {
    if s.Some? then Some(Timelines.Snapshot(s.value.size, s.value.digest, s.value.content)) else None
  }

  /** What scans report of a file is what the last two found of it, and what a history may
      record: its content, where it was kept, is the one digested. */
  lemma ReportsAreHonest(scans: seq<Scan>, last: Scan, max: nat, changes: seq<Change>, c: Change)
    requires Reports(After(map[], scans, max), After(map[], scans + [last], max), changes) && c in changes
    ensures Timelines.Honest(ToHistory(c.before)) && Timelines.Honest(ToHistory(c.after))
    ensures var previous, current := After(map[], scans, max), After(map[], scans + [last], max);
            && c.before == (if c.path !in previous then None
                            else var e := previous[c.path]; Some(Snapshot(e.size, e.digest, e.content)))
            && c.after == (if c.path !in current then None
                           else var e := current[c.path]; Some(Snapshot(e.size, e.digest, e.content)))
            && (c.before.Some? && c.after.Some? ==> c.before.value.digest != c.after.value.digest)
  {
    hide After;
    ScansKeepContents(scans, max);
    ScansKeepContents(scans + [last], max);
  }

  /** Reports are in the order of paths, component by component, a folder before what is
      in it. */
  lemma {:induction false} BeforeExactly(a: Path, b: Path)
    ensures Before(a, b) <==>
            exists k: nat | k <= |a| && k < |b| :: a[..k] == b[..k] && (k == |a| || a[k] < b[k])
  {
    if a != [] && b != [] && a[0] == b[0] {
      BeforeExactly(a[1..], b[1..]);
      if k: nat :| k <= |a| && k < |b| && a[..k] == b[..k] && (k == |a| || a[k] < b[k]) {
        assert k > 0;
        assert a[1..][..k - 1] == a[..k][1..] && b[1..][..k - 1] == b[..k][1..];
      }
      if k: nat :| k <= |a[1..]| && k < |b[1..]| && a[1..][..k] == b[1..][..k]
                   && (k == |a[1..]| || a[1..][k] < b[1..][k]) {
        assert a[..k + 1] == [a[0]] + a[1..][..k] && b[..k + 1] == [b[0]] + b[1..][..k];
      }
    } else if b != [] {
      assert a[..0] == b[..0];
      assert a != [] ==> forall k: nat | 0 < k <= |a| && k < |b| :: a[..k][0] == a[0] && b[..k][0] == b[0];
    }
  }

  // ---------- a scan finds what is on disk ----------

  predicate DistinctLooks(looks: seq<Look>) {
    forall i, j | 0 <= i < j < |looks| :: looks[i].path != looks[j].path
  }

  lemma {:induction false} ScannedAt(previous: Files, looks: seq<Look>, started: int, max: nat)
    requires DistinctLooks(looks)
    ensures var files := Scanned(previous, looks, started, max);
            && (forall k | 0 <= k < |looks| ::
                  Get(files, looks[k].path) == EntryOf(Get(previous, looks[k].path), looks[k], started, max))
            && (forall path | path in files :: exists k | 0 <= k < |looks| :: looks[k].path == path)
  {
    hide EntryOf;
    if looks != [] {
      ScannedAt(previous, looks[..|looks| - 1], started, max);
    }
  }

  /** A scan holds exactly the files that were there when it looked, each with the content
      it had, whether it was read or known from an earlier scan. */
  lemma ScanFindsTheDisk(
    w: World, start: nat, scans: seq<Scan>, next: Scan, max: nat, k: nat)
    requires Timely(w) && InTurn(w, start, scans + [next]) && Still(w, next.looks, next.times)
    requires DistinctLooks(next.looks) && k < |next.looks|
    ensures var path := next.looks[k].path;
            var found := Get(Scanned(After(map[], scans, max), next.looks, next.started, max), path);
            var file := w.At(next.times[k].stat, path);
            && found.Some? == file.Some?
            && (found.Some? ==> found.value.digest == file.value.bytes && found.value.modified == file.value.modified)
  {
    hide Timely, AllTrusted, Scanned, After, EntryOf, Looked;
    var all := scans + [next];
    assert all[..|scans|] == scans && all[|scans|] == next;
    NoneTrusted(w, start);
    ScansKeepTrust(w, start, map[], scans, max);
    var previous := After(map[], scans, max);
    ScannedAt(previous, next.looks, next.started, max);
    assert Looked(w, next.looks[k], next.times[k]);
    LookIsTrue(w, previous, next.looks[k], next.times[k], next.started, max, Until(start, scans));
  }

  // ---------- scans of one folder, over a run of the class ----------

  /** One call of the class, and what it returned. */
  datatype Call = Call(
    root: Path, walked: Option<seq<Look>>, now: int, started: int, max: nat, result: Option<seq<Change>>)

  /** What the class knew before each call, and at the end. */
  ghost predicate Trace(known: seq<Known>, calls: seq<Call>) {
    && |known| == |calls| + 1
    && forall k | 0 <= k < |calls| ::
         var c := calls[k];
         Refreshed(known[k], known[k + 1], c.root, c.walked, c.now, c.started, c.max, c.result)
  }

  lemma TraceAt(known: seq<Known>, calls: seq<Call>, k: nat)
    requires Trace(known, calls) && k < |calls|
    ensures var c := calls[k];
            Refreshed(known[k], known[k + 1], c.root, c.walked, c.now, c.started, c.max, c.result)
  {
  }

  /** No call from `i` to `j` is about the folder, and each comes within half an hour of
      its last scan. */
  predicate LetBe(calls: seq<Call>, root: Path, used: int, i: nat, j: nat) {
    j <= |calls| && forall k | i <= k < j :: calls[k].root != root && calls[k].now - used < 30 * 60 * 1_000_000_000
  }

  /** What is known of a folder stays while only others are scanned. */
  lemma {:induction false} StaysKnown(known: seq<Known>, calls: seq<Call>, root: Path, i: nat, j: nat)
    requires Trace(known, calls) && i <= j <= |calls| && root in known[i].roots && root !in known[i].tooLarge
    requires LetBe(calls, root, known[i].roots[root].used, i, j)
    ensures root in known[j].roots && known[j].roots[root] == known[i].roots[root] && root !in known[j].tooLarge
    decreases j
  {
    if i < j {
      StaysKnown(known, calls, root, i, j - 1);
      TraceAt(known, calls, j - 1);
      hide Scanned, Reports, Trace;
      assert Keeps(known[j - 1], known[j], root, calls[j - 1].now);
    }
  }

  /** The calls at `at` are all that scan the folder, from the first of them to the last,
      and each comes within half an hour of the one before it. */
  predicate Steady(calls: seq<Call>, root: Path, at: seq<nat>) {
    && at != []
    && (forall i | 0 <= i < |at| :: at[i] < |calls| && calls[at[i]].root == root && calls[at[i]].walked.Some?)
    && (forall i | 0 < i < |at| ::
          && at[i - 1] < at[i]
          && LetBe(calls, root, calls[at[i - 1]].now, at[i - 1] + 1, at[i])
          && calls[at[i]].now - calls[at[i - 1]].now < 30 * 60 * 1_000_000_000)
  }

  /** The scans of the folder after the first. */
  predicate AreScans(calls: seq<Call>, at: seq<nat>, max: nat, scans: seq<Scan>)
    requires at != [] && forall i | 0 <= i < |at| :: at[i] < |calls| && calls[at[i]].walked.Some?
  {
    && |scans| == |at| - 1
    && forall i | 0 < i < |at| ::
         var c, scan := calls[at[i]], scans[i - 1];
         scan.looks == c.walked.value && scan.started == c.started && c.max == max
  }

  lemma OneScan(known: seq<Known>, calls: seq<Call>, root: Path, i: nat, j: nat)
    requires Trace(known, calls) && i < j < |calls|
    requires root in known[i + 1].roots && root !in known[i + 1].tooLarge
    requires known[i + 1].roots[root].used == calls[i].now && LetBe(calls, root, calls[i].now, i + 1, j)
    requires calls[j].root == root && calls[j].walked.Some? && calls[j].now - calls[i].now < 30 * 60 * 1_000_000_000
    ensures var c, previous := calls[j], known[i + 1].roots[root].files;
            && root in known[j + 1].roots && root !in known[j + 1].tooLarge
            && known[j + 1].roots[root] == Folder(Scanned(previous, c.walked.value, c.started, c.max), c.now)
            && c.result.Some? && Reports(previous, known[j + 1].roots[root].files, c.result.value)
  {
    StaysKnown(known, calls, root, i + 1, j);
    TraceAt(known, calls, j);
    hide Scanned, Reports, Trace, Keeps;
  }

  lemma FirstScan(known: seq<Known>, calls: seq<Call>, root: Path, i: nat)
    requires Trace(known, calls) && i < |calls| && calls[i].root == root
    requires calls[i].result.Some?
    ensures root in known[i + 1].roots && root !in known[i + 1].tooLarge
    ensures known[i + 1].roots[root].used == calls[i].now
  {
    TraceAt(known, calls, i);
    hide Scanned, Reports, Trace, Keeps;
  }

  /** Whatever other folders are scanned meanwhile, the scans of a folder that come within
      half an hour of each other report all that changed between them: each is compared with
      the one before it. */
  lemma {:induction false} SteadyScansReport(
    known: seq<Known>, calls: seq<Call>, root: Path, at: seq<nat>, max: nat, scans: seq<Scan>, n: nat)
    requires Trace(known, calls) && Steady(calls, root, at) && AreScans(calls, at, max, scans)
    requires calls[at[0]].result.Some? && n < |at|
    ensures var first := at[0] + 1;
            && root in known[first].roots
            && forall i | 0 <= i <= n ::
                 && calls[at[i]].result.Some?
                 && root in known[at[i] + 1].roots && root !in known[at[i] + 1].tooLarge
                 && known[at[i] + 1].roots[root].used == calls[at[i]].now
                 && known[at[i] + 1].roots[root].files == After(known[first].roots[root].files, scans[..i], max)
                 && (i > 0 ==> Reports(After(known[first].roots[root].files, scans[..i - 1], max),
                                       After(known[first].roots[root].files, scans[..i], max),
                                       calls[at[i]].result.value))
  {
    hide Trace, Scanned, Reports, LetBe;
    if n == 0 {
      FirstScan(known, calls, root, at[0]);
      assert scans[..0] == [];
    } else {
      SteadyScansReport(known, calls, root, at, max, scans, n - 1);
      OneScan(known, calls, root, at[n - 1], at[n]);
      assert scans[..n][..n - 1] == scans[..n - 1] && scans[..n][n - 1] == scans[n - 1];
      assert scans[n - 1].looks == calls[at[n]].walked.value && scans[n - 1].started == calls[at[n]].started;
    }
  }

  function ReportsOf(calls: seq<Call>, at: seq<nat>): (reports: seq<seq<Change>>)
    requires at != [] && forall i | 0 <= i < |at| :: at[i] < |calls| && calls[at[i]].result.Some?
    ensures |reports| == |at| - 1 && forall i | 0 < i < |at| :: reports[i - 1] == calls[at[i]].result.value
  {
    seq(|at| - 1, i requires 0 <= i < |at| - 1 => calls[at[i + 1]].result.value)
  }

  /** So what the class reports of the folder is a journal: replayed on what the first scan
      found, it gives what the last one found. */
  lemma ClassKeepsJournal(
    known: seq<Known>, calls: seq<Call>, root: Path, at: seq<nat>, max: nat, scans: seq<Scan>)
    requires Trace(known, calls) && Steady(calls, root, at) && AreScans(calls, at, max, scans)
    requires calls[at[0]].result.Some?
    ensures forall i | 0 <= i < |at| :: calls[at[i]].result.Some?
    ensures var first, last := at[0] + 1, at[|at| - 1] + 1;
            && root in known[first].roots && root in known[last].roots
            && AllReported(known[first].roots[root].files, scans, max, ReportsOf(calls, at))
            && Replayed(Digests(known[first].roots[root].files), Journal(ReportsOf(calls, at)))
                 == Some(Digests(known[last].roots[root].files))
  {
    hide Trace, Steady, Reports, Replayed, Journal, After, Digests;
    SteadyCalls(known, calls, root, at);
    SteadyScansReport(known, calls, root, at, max, scans, |at| - 1);
    assert scans[..|at| - 1] == scans;
    var files, reports := known[at[0] + 1].roots[root].files, ReportsOf(calls, at);
    forall k | 0 <= k < |scans|
      ensures Reports(After(files, scans[..k], max), After(files, scans[..k + 1], max), reports[k])
    {
      assert reports[k] == calls[at[k + 1]].result.value;
    }
    JournalReplays(files, scans, max, reports);
  }

  lemma SteadyCalls(known: seq<Known>, calls: seq<Call>, root: Path, at: seq<nat>)
    requires Trace(known, calls) && Steady(calls, root, at)
    ensures |known| == |calls| + 1
    ensures at != [] && forall i | 0 <= i < |at| :: at[i] < |calls| && calls[at[i]].walked.Some?
  {
  }
}
