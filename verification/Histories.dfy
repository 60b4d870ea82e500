/** The history of many files, and patches that change several at once. */
module Histories {
  import opened Base
  import opened Splices
  import opened Timelines
  import opened TimelineClass
  import opened Patches

  /** What each scope last read of a file. */
  type Reads = map<(string, Path), Option<Stamp>>

  datatype PatchFailure =
    | DuplicatePath(path: Path)
    | AlreadyExists(path: Path)
    | NotRead(path: Path)
    | ChangedSinceRead(path: Path)
    | InvalidUtf8(path: Path)
    | RemoveLeavesLines(path: Path)
    | HunkFails(path: Path, error: HunkError)
    | FileFails(path: Path, fsError: FsError)

  /** Why a patch failed, and the written files that could not be put back. */
  datatype PatchError = PatchError(cause: PatchFailure, stillChanged: seq<Path>)

  // ---------- edits by other programs ----------

  datatype Edit = Edit(path: Path, bytes: Option<Bytes>, age: Age)

  function Edited(files: map<Path, File>, now: int, e: Edit): map<Path, File> {
    if e.bytes.Some? then files[e.path := File(e.bytes.value, now - e.age)] else files - {e.path}
  }

  function AfterEdits(files: map<Path, File>, now: int, edits: seq<Edit>): map<Path, File> {
    if edits == [] then files
    else Edited(AfterEdits(files, now, edits[..|edits| - 1]), now, edits[|edits| - 1])
  }

  predicate Touches(edits: seq<Edit>, path: Path) {
    exists k | 0 <= k < |edits| :: edits[k].path == path
  }

  /** A path's content after edits depends on its content before them only, and
      not even on that when no edit touches it. */
  lemma {:induction false} EditsAreLocal(
    a: map<Path, File>, b: map<Path, File>, now: int, edits: seq<Edit>, path: Path)
    requires ContentAt(a, path) == ContentAt(b, path)
    ensures ContentAt(AfterEdits(a, now, edits), path) == ContentAt(AfterEdits(b, now, edits), path)
    ensures !Touches(edits, path) ==> ContentAt(AfterEdits(a, now, edits), path) == ContentAt(a, path)
  {
    if edits != [] {
      var last := |edits| - 1;
      EditsAreLocal(a, b, now, edits[..last], path);
      assert edits[..last + 1] == edits;
      assert Touches(edits[..last], path) ==> Touches(edits, path) by {
        assert forall k | 0 <= k < last :: edits[..last][k] == edits[k];
      }
      assert !Touches(edits, path) ==> edits[last].path != path;
    }
  }

  lemma EditsAreLocalEverywhere(a: map<Path, File>, b: map<Path, File>, now: int, edits: seq<Edit>)
    ensures forall p | ContentAt(a, p) == ContentAt(b, p) ::
              ContentAt(AfterEdits(a, now, edits), p) == ContentAt(AfterEdits(b, now, edits), p)
    ensures forall p | !Touches(edits, p) :: ContentAt(AfterEdits(a, now, edits), p) == ContentAt(a, p)
  {
    forall p | ContentAt(a, p) == ContentAt(b, p)
      ensures ContentAt(AfterEdits(a, now, edits), p) == ContentAt(AfterEdits(b, now, edits), p)
    {
      EditsAreLocal(a, b, now, edits, p);
    }
    forall p | !Touches(edits, p)
      ensures ContentAt(AfterEdits(a, now, edits), p) == ContentAt(a, p)
    {
      EditsAreLocal(a, a, now, edits, p);
    }
  }

  lemma {:induction false} EditsCompose(files: map<Path, File>, now: int, first: seq<Edit>, more: seq<Edit>)
    ensures AfterEdits(files, now, first + more) == AfterEdits(AfterEdits(files, now, first), now, more)
  {
    if more == [] {
      assert first + more == first;
    } else {
      var last := |more| - 1;
      assert (first + more)[..|first| + last] == first + more[..last];
      EditsCompose(files, now, first, more[..last]);
    }
  }

  // ---------- text ----------

  predicate InRange(c: char, low: int, high: int) {
    low <= c as int <= high
  }

  /** The bytes are UTF-8 (section 4 of RFC 3629). */
  predicate Utf8(b: Bytes) {
    if b == "" then true
    else if InRange(b[0], 0x00, 0x7F) then Utf8(b[1..])
    else if InRange(b[0], 0xC2, 0xDF) then |b| > 1 && Tail(b[1]) && Utf8(b[2..])
    else if InRange(b[0], 0xE0, 0xEF) then
      && |b| > 2
      && InRange(b[1], if b[0] as int == 0xE0 then 0xA0 else 0x80, if b[0] as int == 0xED then 0x9F else 0xBF)
      && Tail(b[2])
      && Utf8(b[3..])
    else if InRange(b[0], 0xF0, 0xF4) then
      && |b| > 3
      && InRange(b[1], if b[0] as int == 0xF0 then 0x90 else 0x80, if b[0] as int == 0xF4 then 0x8F else 0xBF)
      && Tail(b[2]) && Tail(b[3])
      && Utf8(b[4..])
    else false
  }

  predicate Tail(c: char) {
    InRange(c, 0x80, 0xBF)
  }

  // ---------- planning ----------

  /** What one file is to become: the state it must still be in, and what it is
      to hold. */
  datatype Plan = Plan(path: Path, stamp: Option<Stamp>, content: Option<Bytes>)

  /** The content a patch gives `text`: none when it removes the file. Both are
      bytes here: lines end at the byte of a newline and markers are single bytes,
      which in UTF-8 are never part of another character, so patching the bytes is
      patching the text. */
  function PatchOutcome(path: Path, text: Bytes, patch: FilePatch): Result<Option<Bytes>, PatchFailure> {
    match Applied(text, patch)
    case Err(e) => Err(HunkFails(path, e))
    case Ok(changed) =>
      if patch.newPath.Some? then Ok(Some(changed))
      else if changed != "" then Err(RemoveLeavesLines(path))
      else Ok(None)
  }

  function PlanFor(seen: Reads, scope: string, path: Path, patch: FilePatch, site: Site, readFails: bool)
    : Result<Plan, PatchFailure>
  {
    var stamp := StampOf(site.Content());
    if readFails then Err(FileFails(path, Io))
    else if patch.oldPath.None? && site.file.Some? then Err(AlreadyExists(path))
    else if patch.oldPath.Some? && (scope, path) !in seen then Err(NotRead(path))
    else if patch.oldPath.Some? && seen[(scope, path)] != stamp then Err(ChangedSinceRead(path))
    else if patch.oldPath.Some? && site.file.None? then Err(FileFails(path, NotFound))
    else if patch.oldPath.Some? && !Utf8(site.file.value.bytes) then Err(InvalidUtf8(path))
    else
      match PatchOutcome(path, site.Content().GetOr(""), patch)
      case Err(e) => Err(e)
      case Ok(content) => Ok(Plan(path, stamp, content))
  }

  /** The plan follows from what the scope had read, and from nothing else: the
      file is to become the patch applied to that; a file to be created was
      not there. */
  predicate FollowsRead(seen: Reads, scope: string, path: Path, patch: FilePatch, plan: Plan) {
    && plan.path == path
    && (if patch.oldPath.None? then plan.stamp.None?
        else (scope, path) in seen && seen[(scope, path)] == plan.stamp && plan.stamp.Some?
             && Utf8(TextOf(plan.stamp)))
    && PatchOutcome(path, TextOf(plan.stamp), patch) == Ok(plan.content)
  }

  lemma PlansFollowReads(seen: Reads, scope: string, path: Path, patch: FilePatch, site: Site, readFails: bool)
    ensures var plan := PlanFor(seen, scope, path, patch, site, readFails);
            plan.Ok? ==> FollowsRead(seen, scope, path, patch, plan.value)
  {
  }

  /** The file holds its patch applied to what the scope had read of it, or to no text
      when the patch creates it; one that the patch removes is gone, and nothing of its
      text was left. */
  predicate AppliedTo(seen: Reads, scope: string, target: (Path, FilePatch), content: Option<Bytes>) {
    var (path, patch) := target;
    && (patch.oldPath.Some? ==> (scope, path) in seen && seen[(scope, path)].Some?)
    && var was := if patch.oldPath.None? then "" else seen[(scope, path)].value.digest;
       && (patch.oldPath.Some? ==> Utf8(was))
       && Applied(was, patch).Ok?
       && (if patch.newPath.Some? then content == Some(Applied(was, patch).value)
           else content == None && Applied(was, patch).value == "")
  }

  lemma FollowingIsApplying(seen: Reads, scope: string, path: Path, patch: FilePatch, plan: Plan)
    requires FollowsRead(seen, scope, path, patch, plan)
    ensures AppliedTo(seen, scope, (path, patch), plan.content)
  {
    hide Applied, Utf8;
  }

  /** A file can be planned exactly when it can be read, the patch creates it and it is
      not there, or changes it and the scope has read it as it is, and the patch applies
      to it; one that is to be removed must be left with no text. */
  lemma PlansExactly(seen: Reads, scope: string, path: Path, patch: FilePatch, site: Site, readFails: bool)
    ensures var r, content := PlanFor(seen, scope, path, patch, site, readFails), site.Content();
            var applied := Applied(if content.Some? then content.value else "", patch);
            && (r.Ok? <==>
                  && !readFails
                  && (if patch.oldPath.None? then content == None
                      else && (scope, path) in seen && DigestOf(seen[(scope, path)]) == content
                           && content.Some? && Utf8(content.value))
                  && applied.Ok?
                  && (patch.newPath.None? ==> applied.value == ""))
            && (r.Ok? ==>
                  && r.value.path == path
                  && DigestOf(r.value.stamp) == content
                  && r.value.content == (if patch.newPath.Some? then Some(applied.value) else None))
  {
    hide Applied, Utf8;
  }

  /** Why a file cannot be planned. */
  lemma PlanRefused(seen: Reads, scope: string, path: Path, patch: FilePatch, site: Site, readFails: bool)
    requires !readFails
    ensures var r, content := PlanFor(seen, scope, path, patch, site, readFails), site.Content();
            var creates, read := patch.oldPath.None?, (scope, path) in seen;
            var current := read && DigestOf(seen[(scope, path)]) == content;
            && (r == Err(AlreadyExists(path)) <==> creates && content.Some?)
            && (r == Err(NotRead(path)) <==> !creates && !read)
            && (r == Err(ChangedSinceRead(path)) <==> !creates && read && !current)
            && (r == Err(FileFails(path, NotFound)) <==> !creates && current && content.None?)
            && (r == Err(InvalidUtf8(path)) <==> !creates && current && content.Some? && !Utf8(content.value))
            && (r.Err? && r.error.HunkFails? ==>
                  r.error.path == path && Applied(content.GetOr(""), patch) == Err(r.error.error))
            && (r.Err? && r.error.RemoveLeavesLines? ==>
                  && r.error.path == path && patch.newPath.None?
                  && Applied(content.GetOr(""), patch).Ok? && Applied(content.GetOr(""), patch) != Ok(""))
            && (r.Err? && r.error.FileFails? ==> r.error.fsError == NotFound)
            && (r.Err? ==> !r.error.DuplicatePath?)
  {
    hide Applied, Utf8;
  }

  // ---------- writing and putting back ----------

  const EMPTY := Log([], 0, [], None, [])

  function OperationFor(content: Option<Bytes>): Operation {
    if content.Some? then Write else Remove
  }

  /** The latest change can be taken back while its file is as it left it. */
  lemma TopCanBeTakenBack(log: Log, site: Site, back: Env)
    requires ValidLog(log) && 0 < log.current <= |log.changes| && Open(log.changes, log.current) && Holds(log, site)
    ensures Parent(log.changes, log.current) < log.current
    ensures var below := Parent(log.changes, log.current);
            var o := RestoredTo(log, site, below, back);
            && (o.result.Ok? <==> !back.readFails && !back.commitFails)
            && (o.result.Ok? ==> o.log.current == below && o.site.Content() == DigestOf(At(log.changes, below)))
            && (o.result.Err? ==> o.log == log && o.site == site)
  {
    OneEdge(log.changes, log.current);
    assert [log.current] + [] == [log.current];
  }

  /** A file just written by this history, and not touched since, can be put
      back: its content and its cursor return. Only the disk can prevent it. */
  lemma WriteCanBeTakenBack(log: Log, site: Site, content: Option<Bytes>, env: Env, now: Site, back: Env)
    requires ValidLog(log)
    requires Mutated(log, site, OperationFor(content), content.GetOr(""), env).result.Ok?
    requires ValidLog(Mutated(log, site, OperationFor(content), content.GetOr(""), env).log)
    requires now.Content() == content
    ensures var written := Mutated(log, site, OperationFor(content), content.GetOr(""), env).log;
            var o := RestoredTo(written, now, log.current, back);
            && (o.result.Ok? <==> !back.readFails && !back.commitFails)
            && (o.result.Ok? ==> o.log.current == log.current && o.site.Content() == site.Content())
            && (o.result.Err? ==> o.log == written && o.site == now)
  {
    hide Splices.Between, RestoredTo, Walk, ValidTree, RedoChain;
    var written := Mutated(log, site, OperationFor(content), content.GetOr(""), env).log;
    assert log.changes == [] ==> log.current == 0;
    TopCanBeTakenBack(written, now, back);
  }

  /** Putting a file back leaves the redo stack empty and the revision that was
      written in the log: the redo stack is as before exactly when it was empty. */
  lemma PutBackLosesRedo(log: Log, site: Site, content: Option<Bytes>, env: Env, now: Site, back: Env)
    requires ValidLog(log)
    requires Mutated(log, site, OperationFor(content), content.GetOr(""), env).result.Ok?
    requires ValidLog(Mutated(log, site, OperationFor(content), content.GetOr(""), env).log)
    requires now.Content() == content && !back.readFails && !back.commitFails
    ensures var written := Mutated(log, site, OperationFor(content), content.GetOr(""), env).log;
            var o := RestoredTo(written, now, log.current, back);
            && o.result.Ok? && o.log.current == log.current
            && log.changes < o.log.changes && |o.log.changes| == |log.changes| + 1
            && o.log.redo == []
            && (o.log.redo == log.redo <==> log.redo == [])
  {
    hide Splices.Between, Walk, ValidTree, RedoChain, Rebuilt;
    WriteCanBeTakenBack(log, site, content, env, now, back);
    var written := Mutated(log, site, OperationFor(content), content.GetOr(""), env).log;
    PuttingBackKeepsTree(written, now, log.current, back);
    assert written.current != log.current;
  }

  /** `after` is `before` with the plan's write on top, and the write found the
      file in the state the plan was made for. */
  ghost predicate WroteOver(before: Log, after: Log, plan: Plan, site: Site, env: Env) {
    && ValidLog(before)
    && ValidLog(after)
    && StampOf(site.Content()) == plan.stamp
    && var o := Mutated(before, site, OperationFor(plan.content), plan.content.GetOr(""), env);
       o.result.Ok? && after == o.log
  }

  ghost predicate Wrote(before: Log, after: Log, plan: Plan) {
    exists site: Site, env: Env :: WroteOver(before, after, plan, site, env)
  }

  lemma WroteCanBeTakenBack(before: Log, after: Log, plan: Plan, now: Site, back: Env)
    requires Wrote(before, after, plan) && now.Content() == plan.content
    ensures ValidLog(after)
    ensures var o := RestoredTo(after, now, before.current, back);
            && (o.result.Ok? <==> !back.readFails && !back.commitFails)
            && (o.result.Ok? ==> o.log.current == before.current && StampOf(o.site.Content()) == plan.stamp)
            && (o.result.Err? ==> o.log == after && o.site == now)
  {
    hide Mutated, RestoredTo, ValidTree, RedoChain, MovesKnown;
    var site, env :| WroteOver(before, after, plan, site, env);
    WriteCanBeTakenBack(before, site, plan.content, env, now, back);
  }

  /** What a planned write does to the file. */
  lemma WriteGivesContent(log: Log, site: Site, content: Option<Bytes>, env: Env)
    requires ValidLog(log)
    ensures var o := Mutated(log, site, OperationFor(content), content.GetOr(""), env);
            && o.site.now == site.now
            && (o.result.Ok? ==> o.result.value == o.log.current && o.site.Content() == content)
            && (o.result.Err? ==> o.log == log && o.site == site)
  {
    hide Splices.Between;
  }

  /** A file the patch has written: the revision made and the one before it. */
  datatype Done = Done(path: Path, revision: nat, previous: nat)

  ghost predicate WroteAs(before: Log, after: Log, plan: Plan, done: Done) {
    Wrote(before, after, plan) && done == Done(plan.path, after.current, before.current)
  }

  /** What happens around one write: edits by other programs before it, and
      whether the disk fails. */
  datatype WriteStep = WriteStep(edits: seq<Edit>, env: Env, noteFails: bool)

  datatype PlanStep = PlanStep(edits: seq<Edit>, readFails: bool)

  // ---------- what the steps of a patch keep ----------

  lemma OneSucceeds(
    before: Reads, now: Reads, scope: string, targets: seq<(Path, FilePatch)>, plans: seq<Plan>, steps: seq<WriteStep>,
    files: map<Path, File>, without: map<Path, File>, k: nat, was: Log, log: Log, done: Done)
    requires AllFollow(before, scope, targets, plans) && |steps| == |plans| && k < |plans|
    requires Landed(files, without, plans, |plans|) && ReadOn(before, now, scope, plans, steps, |plans|)
    requires WroteAs(was, log, plans[k], done)
    ensures HoldsPatch(before, scope, targets[k], was, log, ContentAt(files, targets[k].0))
    ensures done.path == targets[k].0 && done.revision == log.current
    ensures steps[k].noteFails || ReadBy(now, scope, targets[k].0) == Some(StampOf(ContentAt(files, targets[k].0)))
  {
    hide Wrote, ContentAt, PatchOutcome, AppliedTo;
    assert FollowsRead(before, scope, targets[k].0, targets[k].1, plans[k]);
    FollowingIsApplying(before, scope, targets[k].0, targets[k].1, plans[k]);
  }

  lemma LandedElsewhere(
    files: map<Path, File>, without: map<Path, File>, targets: seq<(Path, FilePatch)>, plans: seq<Plan>)
    requires Landed(files, without, plans, |plans|)
    requires forall p :: Plans(plans, p) <==> IsTarget(targets, p)
    ensures forall p | !IsTarget(targets, p) :: ContentAt(files, p) == ContentAt(without, p)
  {
    hide ContentAt, Plans, IsTarget;
    assert plans[..|plans|] == plans;
  }

  lemma OtherReadsKept(
    before: Reads, now: Reads, scope: string, targets: seq<(Path, FilePatch)>, plans: seq<Plan>, steps: seq<WriteStep>)
    requires |plans| == |steps| && ReadOn(before, now, scope, plans, steps, |plans|)
    requires forall p :: Plans(plans, p) <==> IsTarget(targets, p)
    ensures forall s, p | s != scope || !IsTarget(targets, p) :: ReadBy(now, s, p) == ReadBy(before, s, p)
  {
    hide IsTarget;
    var keys := Keys(scope, plans);
    forall s, p | s != scope || !IsTarget(targets, p)
      ensures ReadBy(now, s, p) == ReadBy(before, s, p)
    {
      var key := (s, p);
      assert key in keys ==> s == scope && Plans(plans, p);
      assert key in now - keys <==> key in before - keys;
      assert key in now ==> (now - keys)[key] == now[key];
      assert key in before ==> (before - keys)[key] == before[key];
    }
  }

  lemma BackFailedAt(targets: seq<(Path, FilePatch)>, plans: seq<Plan>, backs: seq<Env>)
    requires |plans| == |targets| == |backs| && forall k | 0 <= k < |plans| :: plans[k].path == targets[k].0
    ensures forall p | BackFailed(plans, backs, p) :: PutBackFailed(targets, backs, p)
  {
  }

  lemma ReadOnKeeps(before: Reads, now: Reads, scope: string, plans: seq<Plan>, steps: seq<WriteStep>, n: nat)
    requires n <= |plans| == |steps| && ReadOn(before, now, scope, plans, steps, n)
    ensures now - Keys(scope, plans) == before - Keys(scope, plans)
  {
  }

  /** The history has every revision it had, unchanged. */
  ghost predicate Grew(before: Log, after: Log) {
    before.changes <= after.changes
  }

  lemma SameGrew(log: Log)
    ensures Grew(log, log)
  {
  }

  lemma SameTreeGrew(before: Log, middle: Log, after: Log)
    requires Grew(before, middle) && after.changes == middle.changes
    ensures Grew(before, after)
  {
  }

  lemma WroteGrows(before: Log, after: Log, plan: Plan, done: Done)
    requires WroteAs(before, after, plan, done)
    ensures Grew(before, after)
  {
    hide Splices.Between, ValidTree, RedoChain, MovesKnown;
    var site, env :| WroteOver(before, after, plan, site, env);
  }

  lemma WroteFrom(before: Log, after: Log, plan: Plan, done: Done)
    requires WroteAs(before, after, plan, done)
    ensures done.previous == before.current
  {
  }

  /** After a failed patch a log is as it was, or has the one revision the patch
      wrote and nothing to redo. */
  ghost predicate RolledBack(before: Log, after: Log) {
    after == before || (|after.changes| == |before.changes| + 1 && after.redo == [])
  }

  lemma WroteOnce(before: Log, after: Log, plan: Plan, done: Done)
    requires WroteAs(before, after, plan, done)
    ensures |after.changes| == |before.changes| + 1 && after.redo == []
  {
    hide Splices.Between, ValidTree, RedoChain, MovesKnown;
    var site, env :| WroteOver(before, after, plan, site, env);
  }

  lemma SameRolledBack(log: Log)
    ensures RolledBack(log, log)
  {
  }

  lemma StillRolledBack(before: Log, middle: Log, after: Log)
    requires |middle.changes| == |before.changes| + 1 && middle.redo == []
    requires after.changes == middle.changes && (middle.redo == [] ==> after.redo == [])
    ensures RolledBack(before, after)
  {
  }

  lemma PuttingBackKeepsTree(log: Log, site: Site, target: nat, env: Env)
    requires ValidLog(log)
    ensures RestoredTo(log, site, target, env).log.changes == log.changes
    ensures log.redo == [] ==> RestoredTo(log, site, target, env).log.redo == []
  {
    hide Rebuilt;
  }

  lemma FewerPlans(plans: seq<Plan>, n: nat, p: Path)
    requires n <= |plans|
    ensures Plans(plans[..n], p) ==> Plans(plans, p)
  {
    if Plans(plans[..n], p) {
      var k := IndexOfPlan(plans, n, p);
    }
  }

  lemma IndexOfPlan(plans: seq<Plan>, n: nat, p: Path) returns (k: nat)
    requires n <= |plans| && Plans(plans[..n], p)
    ensures k < n && plans[k].path == p
  {
    k :| 0 <= k < n && plans[..n][k].path == p;
  }

  /** The disk failed while the planned file `p` was put back. */
  ghost predicate BackFailed(plans: seq<Plan>, backs: seq<Env>, p: Path)
    requires |backs| == |plans|
  {
    exists k | 0 <= k < |plans| :: plans[k].path == p && (backs[k].readFails || backs[k].commitFails)
  }

  method Duplicate(targets: seq<(Path, FilePatch)>) returns (twice: Option<Path>)
    ensures twice.None? ==> forall j, k | 0 <= j < k < |targets| :: targets[j].0 != targets[k].0
    ensures twice.Some? ==> exists j, k | 0 <= j < k < |targets| :: targets[j].0 == targets[k].0 == twice.value
  {
    var seen: set<Path> := {};
    var k := 0;
    while k < |targets|
      invariant 0 <= k <= |targets|
      invariant forall j | 0 <= j < k :: targets[j].0 in seen
      invariant forall p | p in seen :: exists j | 0 <= j < k :: targets[j].0 == p
      invariant forall i, j | 0 <= i < j < k :: targets[i].0 != targets[j].0
    {
      if targets[k].0 in seen {
        return Some(targets[k].0);
      }
      seen := seen + {targets[k].0};
      k := k + 1;
    }
    return None;
  }

  /** The log has the patch's write on top, and the file holds the patch applied
      to what the scope had read. */
  ghost predicate HoldsPatch(
    seen: Reads, scope: string, target: (Path, FilePatch), before: Log, after: Log, content: Option<Bytes>)
  {
    && AppliedTo(seen, scope, target, content)
    && var was := if target.1.oldPath.None? then None else seen[(scope, target.0)];
       Wrote(before, after, Plan(target.0, was, content))
  }

  ghost predicate IsTarget(targets: seq<(Path, FilePatch)>, p: Path) {
    exists k | 0 <= k < |targets| :: targets[k].0 == p
  }

  ghost predicate PutBackFailed(targets: seq<(Path, FilePatch)>, backs: seq<Env>, p: Path)
    requires |backs| == |targets|
  {
    exists k | 0 <= k < |targets| :: targets[k].0 == p && (backs[k].readFails || backs[k].commitFails)
  }

  /** `without` comes from `start` by other programs' edits alone: those of some
      first steps. */
  ghost predicate OnlyEdits(
    start: map<Path, File>, without: map<Path, File>, now: int, planSteps: seq<PlanStep>, writeSteps: seq<WriteStep>)
  {
    exists n, m | 0 <= n <= |planSteps| && 0 <= m <= |writeSteps| ::
      without == AfterEdits(AfterEdits(start, now, PlanEdits(planSteps, n)), now, AllEdits(writeSteps, m))
  }

  lemma NothingRan(start: map<Path, File>, now: int, planSteps: seq<PlanStep>, writeSteps: seq<WriteStep>)
    ensures OnlyEdits(start, start, now, planSteps, writeSteps)
  {
    assert PlanEdits(planSteps, 0) == [] && AllEdits(writeSteps, 0) == [];
    NoEdits(start, now);
  }

  lemma PlansRan(start: map<Path, File>, now: int, planSteps: seq<PlanStep>, n: nat, writeSteps: seq<WriteStep>)
    requires n <= |planSteps|
    ensures OnlyEdits(start, AfterEdits(start, now, PlanEdits(planSteps, n)), now, planSteps, writeSteps)
  {
    assert AllEdits(writeSteps, 0) == [];
    NoEdits(AfterEdits(start, now, PlanEdits(planSteps, n)), now);
  }

  lemma AllRan(
    start: map<Path, File>, planned: map<Path, File>, now: int,
    planSteps: seq<PlanStep>, writeSteps: seq<WriteStep>, m: nat)
    requires m <= |writeSteps| && planned == AfterEdits(start, now, PlanEdits(planSteps, |planSteps|))
    ensures OnlyEdits(start, AfterEdits(planned, now, AllEdits(writeSteps, m)), now, planSteps, writeSteps)
  {
  }

  lemma PlansAreDistinct(
    seen: Reads, scope: string, targets: seq<(Path, FilePatch)>, plans: seq<Plan>, steps: seq<WriteStep>)
    requires AllFollow(seen, scope, targets, plans) && |steps| == |targets| && DistinctTargets(targets)
    requires forall j, k | 0 <= j < k < |targets| :: !Touches(steps[k].edits, targets[j].0)
    ensures Distinct(plans) && Undisturbed(plans, steps)
    ensures forall p :: Plans(plans, p) <==> IsTarget(targets, p)
    ensures |plans| == |targets| && forall k | 0 <= k < |plans| :: plans[k].path == targets[k].0
  {
    hide Touches, PatchOutcome;
    assert forall k | 0 <= k < |plans| :: plans[k].path == targets[k].0;
  }

  function PlanEdits(steps: seq<PlanStep>, n: nat): seq<Edit>
    requires n <= |steps|
  {
    if n == 0 then [] else PlanEdits(steps, n - 1) + steps[n - 1].edits
  }

  predicate AllFollow(seen: Reads, scope: string, targets: seq<(Path, FilePatch)>, plans: seq<Plan>) {
    && |plans| == |targets|
    && forall k | 0 <= k < |plans| :: FollowsRead(seen, scope, targets[k].0, targets[k].1, plans[k])
  }

  function ReadBy(seen: Reads, scope: string, path: Path): Option<Option<Stamp>> {
    if (scope, path) in seen then Some(seen[(scope, path)]) else None
  }

  lemma KeysShrink(now: Reads, before: Reads, scope: string, plans: seq<Plan>, k: nat)
    requires k < |plans| && now - Keys(scope, plans[k..]) == before - Keys(scope, plans[k..])
    ensures var key, earlier := (scope, plans[k].path), ReadBy(before, scope, plans[k].path);
            var after := if earlier.Some? then now[key := earlier.value] else now - {key};
            after - Keys(scope, plans[k + 1..]) == before - Keys(scope, plans[k + 1..])
  {
    var key, earlier := (scope, plans[k].path), ReadBy(before, scope, plans[k].path);
    var after := if earlier.Some? then now[key := earlier.value] else now - {key};
    var rest := Keys(scope, plans[k + 1..]);
    assert Keys(scope, plans[k..]) == {key} + rest by {
      assert plans[k..] == [plans[k]] + plans[k + 1..];
    }
    forall x
      ensures x in after - rest <==> x in before - rest
      ensures x in after - rest ==> (after - rest)[x] == (before - rest)[x]
    {
      if x != key && x !in rest {
        assert x in now <==> x in now - ({key} + rest);
        assert x in before <==> x in before - ({key} + rest);
        assert x in now ==> now[x] == (now - ({key} + rest))[x] == (before - ({key} + rest))[x];
      }
    }
  }

  /** The log ends in the plan's write, recorded as `done`. */
  ghost predicate CanBePutBack(log: Log, plan: Plan, done: Done) {
    exists before :: WroteAs(before, log, plan, done)
  }

  lemma CanReturn(log: Log, plan: Plan, done: Done, now: Site, back: Env)
    requires CanBePutBack(log, plan, done) && now.Content() == plan.content
    ensures ValidLog(log) && done.path == plan.path
    ensures var o := RestoredTo(log, now, done.previous, back);
            && (o.result.Ok? <==> !back.readFails && !back.commitFails)
            && (o.result.Ok? ==> o.log.current == done.previous && StampOf(o.site.Content()) == plan.stamp)
            && (o.result.Err? ==> o.log == log && o.site == now)
  {
    hide Wrote, RestoredTo, ValidTree, RedoChain, MovesKnown;
    var before :| WroteAs(before, log, plan, done);
    WroteCanBeTakenBack(before, log, plan, now, back);
  }

  /** The first `k` of `n` landed plans are still on disk; of the rest, those
      not in `still` hold what they would without the patch, like every other
      file. */
  ghost predicate PutBack(
    files: map<Path, File>, without: map<Path, File>, plans: seq<Plan>, n: nat, k: nat, still: seq<Path>)
    requires k <= n <= |plans|
  {
    && (forall j | 0 <= j < k ::
          && ContentAt(files, plans[j].path) == plans[j].content
          && plans[j].path !in still)
    && (forall j | 0 <= j < n :: StampOf(ContentAt(without, plans[j].path)) == plans[j].stamp)
    && (forall p | !Plans(plans[..k], p) && p !in still :: ContentAt(files, p) == ContentAt(without, p))
    && (forall p | p in still :: Plans(plans[..n], p))
  }

  lemma NothingPutBack(files: map<Path, File>, without: map<Path, File>, plans: seq<Plan>, n: nat)
    requires n <= |plans| && Landed(files, without, plans, n)
    ensures PutBack(files, without, plans, n, n, [])
  {
  }

  lemma IsOnDisk(
    files: map<Path, File>, without: map<Path, File>, plans: seq<Plan>, n: nat, k: nat, still: seq<Path>, site: Site)
    requires k < n <= |plans| && PutBack(files, without, plans, n, k + 1, still)
    requires site.Content() == ContentAt(files, plans[k].path)
    ensures site.Content() == plans[k].content
  {
  }

  lemma PutBackGrows(
    before: map<Path, File>, files: map<Path, File>, without: map<Path, File>, plans: seq<Plan>, n: nat, k: nat,
    still: seq<Path>, ok: bool, site: Site)
    requires k < n <= |plans| && Distinct(plans) && PutBack(before, without, plans, n, k + 1, still)
    requires files - {plans[k].path} == before - {plans[k].path}
    requires site.Content() == ContentAt(files, plans[k].path)
    requires ok ==> StampOf(site.Content()) == plans[k].stamp
    ensures PutBack(files, without, plans, n, k, if ok then still else still + [plans[k].path])
    ensures plans[k].path !in still && Plans(plans[..n], plans[k].path)
    ensures forall j | 0 <= j < n && j != k :: plans[j].path != plans[k].path
  {
    hide ContentAt, Plans;
    ContentElsewhere(before, files, plans[k].path);
    PlansGrow(plans, k);
    PlansHold(plans, n, k);
  }

  lemma PlansHold(plans: seq<Plan>, n: nat, k: nat)
    requires k < n <= |plans|
    ensures Plans(plans[..n], plans[k].path)
  {
    assert plans[..n][k] == plans[k];
  }

  lemma AllPutBack(files: map<Path, File>, without: map<Path, File>, plans: seq<Plan>, n: nat, still: seq<Path>)
    requires n <= |plans| && PutBack(files, without, plans, n, 0, still)
    ensures forall p | p !in still :: ContentAt(files, p) == ContentAt(without, p)
    ensures forall p | !Plans(plans[..n], p) :: p !in still
  {
  }

  /** The first `n` plans are on disk, over the state they were made for, and
      every other file is as it would be without the patch. */
  ghost predicate Landed(files: map<Path, File>, without: map<Path, File>, plans: seq<Plan>, n: nat)
    requires n <= |plans|
  {
    && (forall k | 0 <= k < n ::
          && ContentAt(files, plans[k].path) == plans[k].content
          && StampOf(ContentAt(without, plans[k].path)) == plans[k].stamp)
    && (forall p | !Plans(plans[..n], p) :: ContentAt(files, p) == ContentAt(without, p))
  }

  /** After `n` writes the scope counts as having read what it wrote, where
      noting it worked, and nothing else about reads has changed. */
  ghost predicate ReadOn(before: Reads, now: Reads, scope: string, plans: seq<Plan>, steps: seq<WriteStep>, n: nat)
    requires n <= |plans| == |steps|
  {
    && now - Keys(scope, plans) == before - Keys(scope, plans)
    && forall k | 0 <= k < n :: steps[k].noteFails || ReadAs(now, scope, plans[k])
  }

  lemma NothingLanded(files: map<Path, File>, plans: seq<Plan>, seen: Reads, scope: string, steps: seq<WriteStep>)
    requires |steps| == |plans|
    ensures Landed(files, files, plans, 0) && ReadOn(seen, seen, scope, plans, steps, 0)
  {
  }

  lemma NextIsUntouched(files: map<Path, File>, without: map<Path, File>, plans: seq<Plan>, k: nat)
    requires k < |plans| && Distinct(plans) && Landed(files, without, plans, k)
    ensures ContentAt(files, plans[k].path) == ContentAt(without, plans[k].path)
  {
    PlansGrow(plans, k);
  }

  lemma LandedGrows(
    before: map<Path, File>, was: map<Path, File>, files: map<Path, File>, without: map<Path, File>,
    plans: seq<Plan>, steps: seq<WriteStep>, k: nat)
    requires k < |plans| == |steps| && Distinct(plans) && Undisturbed(plans, steps) && Landed(before, was, plans, k)
    requires forall p | p != plans[k].path && ContentAt(before, p) == ContentAt(was, p) ::
               ContentAt(files, p) == ContentAt(without, p)
    requires forall p | p != plans[k].path && !Touches(steps[k].edits, p) ::
               ContentAt(files, p) == ContentAt(before, p) && ContentAt(without, p) == ContentAt(was, p)
    ensures ContentAt(files, plans[k].path) == ContentAt(without, plans[k].path) ==> Landed(files, without, plans, k)
    ensures (ContentAt(files, plans[k].path) == plans[k].content
             && StampOf(ContentAt(without, plans[k].path)) == plans[k].stamp) ==> Landed(files, without, plans, k + 1)
  {
    hide Plans, ContentAt, Touches;
    PlansGrow(plans, k);
    assert forall j | 0 <= j < k :: !Touches(steps[k].edits, plans[j].path);
  }

  lemma ReadsGrow(before: Reads, now: Reads, scope: string, plans: seq<Plan>, steps: seq<WriteStep>, k: nat)
    requires k < |plans| == |steps| && Distinct(plans) && ReadOn(before, now, scope, plans, steps, k)
    ensures steps[k].noteFails ==> ReadOn(before, now, scope, plans, steps, k + 1)
    ensures ReadOn(before, now[(scope, plans[k].path) := StampOf(plans[k].content)], scope, plans, steps, k + 1)
  {
    assert (scope, plans[k].path) in Keys(scope, plans);
  }

  lemma PlansGrow(plans: seq<Plan>, k: nat)
    requires k < |plans| && Distinct(plans)
    ensures forall p :: Plans(plans[..k + 1], p) <==> Plans(plans[..k], p) || p == plans[k].path
    ensures !Plans(plans[..k], plans[k].path)
    ensures forall j | 0 <= j < k :: plans[j].path != plans[k].path
  {
    forall p
      ensures Plans(plans[..k + 1], p) <==> Plans(plans[..k], p) || p == plans[k].path
    {
      assert plans[..k + 1][k] == plans[k];
      assert forall j | 0 <= j < k :: plans[..k + 1][j] == plans[..k][j];
    }
  }

  lemma ContentElsewhere(a: map<Path, File>, b: map<Path, File>, path: Path)
    requires a - {path} == b - {path}
    ensures forall p | p != path :: ContentAt(a, p) == ContentAt(b, p)
  {
    forall p | p != path
      ensures ContentAt(a, p) == ContentAt(b, p)
    {
      assert p in a <==> p in a - {path};
      assert p in b <==> p in b - {path};
      assert p in a ==> a[p] == (a - {path})[p] == (b - {path})[p] == b[p];
    }
  }

  /** The scope counts as having read what the plan wrote. */
  predicate ReadAs(seen: Reads, scope: string, plan: Plan) {
    (scope, plan.path) in seen && seen[(scope, plan.path)] == StampOf(plan.content)
  }

  lemma NoEdits(files: map<Path, File>, now: int)
    ensures AfterEdits(files, now, []) == files
  {
  }

  predicate Distinct(plans: seq<Plan>) {
    forall j, k | 0 <= j < k < |plans| :: plans[j].path != plans[k].path
  }

  predicate Plans(plans: seq<Plan>, p: Path) {
    exists k | 0 <= k < |plans| :: plans[k].path == p
  }

  /** No other program touches a file once the patch has written it. */
  predicate Undisturbed(plans: seq<Plan>, steps: seq<WriteStep>)
    requires |steps| == |plans|
  {
    forall j, k | 0 <= j < k < |plans| :: !Touches(steps[k].edits, plans[j].path)
  }

  function AllEdits(steps: seq<WriteStep>, n: nat): seq<Edit>
    requires n <= |steps|
  {
    if n == 0 then [] else AllEdits(steps, n - 1) + steps[n - 1].edits
  }

  /** How many writes were begun. */
  function Ran(done: seq<Done>, failure: Option<PatchFailure>): nat {
    |done| + if failure.Some? then 1 else 0
  }

  function Keys(scope: string, plans: seq<Plan>): set<(string, Path)> {
    set k | 0 <= k < |plans| :: (scope, plans[k].path)
  }

  // ---------- when a patch succeeds ----------

  /** A file with this content; nothing else of it matters to a plan. */
  function Holding(content: Option<Bytes>): Site {
    Site(if content.Some? then Some(File(content.value, 0)) else None, 0, 0)
  }

  lemma PlanIsOfContent(
    seen: Reads, scope: string, path: Path, patch: FilePatch, site: Site, readFails: bool)
    ensures PlanFor(seen, scope, path, patch, site, readFails)
         == PlanFor(seen, scope, path, patch, Holding(site.Content()), readFails)
  {
    hide PatchOutcome, Utf8;
  }

  /** The plan of target `k`, made after the edits that come before it. */
  function PlanAt(
    seen: Reads, scope: string, targets: seq<(Path, FilePatch)>, steps: seq<PlanStep>,
    files: map<Path, File>, now: int, k: nat): Result<Plan, PatchFailure>
    requires k < |targets| == |steps|
  {
    var content := ContentAt(AfterEdits(files, now, PlanEdits(steps, k + 1)), targets[k].0);
    PlanFor(seen, scope, targets[k].0, targets[k].1, Holding(content), steps[k].readFails)
  }

  /** The plan can be written: the disk works, and the file is still as planned and as
      the history left it; one to be removed is there. */
  ghost predicate CanWrite(log: Log, plan: Plan, step: WriteStep, content: Option<Bytes>) {
    && !step.env.readFails
    && !step.env.commitFails
    && StampOf(content) == plan.stamp
    && log.current <= |log.changes|
    && Holds(log, Holding(content))
    && (plan.content.None? ==> content.Some?)
  }

  /** Why the plan cannot be written. */
  function WriteError(log: Log, plan: Plan, step: WriteStep, content: Option<Bytes>): PatchFailure
    requires log.current <= |log.changes|
  {
    if step.env.readFails then FileFails(plan.path, Io)
    else if StampOf(content) != plan.stamp then ChangedSinceRead(plan.path)
    else if !Holds(log, Holding(content)) then FileFails(plan.path, Conflict)
    else if plan.content.None? && content.None? then FileFails(plan.path, NotFound)
    else FileFails(plan.path, Io)
  }

  /** A write that fails says that the file changed since it was read exactly when, with a
      disk that could read it, it is not as planned, and that its history disagrees, or that
      it is not there, exactly when that is so; else it was the disk. */
  lemma WriteRefused(log: Log, plan: Plan, step: WriteStep, content: Option<Bytes>)
    requires log.current <= |log.changes|
    ensures var e, planned := WriteError(log, plan, step, content), DigestOf(plan.stamp) == content;
            var expected := log.changes == [] || DigestOf(At(log.changes, log.current)) == content;
            var readable := !step.env.readFails;
            && (e == ChangedSinceRead(plan.path) <==> readable && !planned)
            && (e == FileFails(plan.path, Conflict) <==> readable && planned && !expected)
            && (e == FileFails(plan.path, NotFound) <==>
                  readable && planned && expected && plan.content.None? && content.None?)
            && (e.FileFails? && e.fsError !in {Conflict, NotFound} ==> e == FileFails(plan.path, Io))
            && (e.ChangedSinceRead? || e.FileFails?)
  {
  }

  lemma MutateSucceeds(log: Log, site: Site, content: Option<Bytes>, env: Env)
    requires ValidLog(log)
    ensures Mutated(log, site, OperationFor(content), content.GetOr(""), env).result.Ok? <==>
            && !env.readFails && !env.commitFails
            && Holds(log, Holding(site.Content()))
            && (content.None? ==> site.Content().Some?)
    ensures var r := Mutated(log, site, OperationFor(content), content.GetOr(""), env).result;
            && (r == Err(Conflict) <==> !env.readFails && !Holds(log, Holding(site.Content())))
            && (r == Err(NotFound) <==>
                  !env.readFails && Holds(log, Holding(site.Content())) && content.None? && site.Content().None?)
            && (r.Err? ==> r.error in {Conflict, NotFound, Io})
  {
    hide Splices.Between, ValidTree, RedoChain, MovesKnown;
  }

  lemma CanWriteIs(log: Log, plan: Plan, step: WriteStep, site: Site)
    requires ValidLog(log)
    ensures CanWrite(log, plan, step, site.Content()) <==>
            && !step.env.readFails
            && StampOf(site.Content()) == plan.stamp
            && Mutated(log, site, OperationFor(plan.content), plan.content.GetOr(""), step.env).result.Ok?
    ensures var r := Mutated(log, site, OperationFor(plan.content), plan.content.GetOr(""), step.env).result;
            !step.env.readFails && StampOf(site.Content()) == plan.stamp && r.Err? ==>
              WriteError(log, plan, step, site.Content()) == FileFails(plan.path, r.error)
  {
    hide Mutated, Holding;
    MutateSucceeds(log, site, plan.content, step.env);
  }

  /** Write `k` finds its file so, after the edits that come before it. */
  ghost predicate WriteFits(
    log: Log, plan: Plan, steps: seq<WriteStep>, files: map<Path, File>, now: int, k: nat)
    requires k < |steps|
  {
    CanWrite(log, plan, steps[k], ContentAt(AfterEdits(files, now, AllEdits(steps, k + 1)), plan.path))
  }

  /** Write `k` does not find its file so, which is why it fails. */
  ghost predicate WriteFails(
    log: Log, plan: Plan, steps: seq<WriteStep>, files: map<Path, File>, now: int, k: nat, cause: PatchFailure)
    requires k < |steps|
  {
    && !WriteFits(log, plan, steps, files, now, k)
    && log.current <= |log.changes|
    && cause == WriteError(log, plan, steps[k], ContentAt(AfterEdits(files, now, AllEdits(steps, k + 1)), plan.path))
  }

  lemma FitsIs(
    log: Log, plan: Plan, steps: seq<WriteStep>, files: map<Path, File>, now: int, k: nat, without: map<Path, File>)
    requires k < |steps| && without == AfterEdits(files, now, AllEdits(steps, k + 1))
    ensures WriteFits(log, plan, steps, files, now, k) <==>
            CanWrite(log, plan, steps[k], ContentAt(without, plan.path))
    ensures log.current <= |log.changes| ==> forall cause :: WriteFails(log, plan, steps, files, now, k, cause) <==>
            && !CanWrite(log, plan, steps[k], ContentAt(without, plan.path))
            && cause == WriteError(log, plan, steps[k], ContentAt(without, plan.path))
  {
    hide CanWrite, WriteError;
  }

  predicate DistinctTargets(targets: seq<(Path, FilePatch)>) {
    forall j, k | 0 <= j < k < |targets| :: targets[j].0 != targets[k].0
  }

  /** Target `k` can be planned, and its plan written. */
  ghost predicate TargetFits(
    seen: Reads, scope: string, targets: seq<(Path, FilePatch)>, log: Log,
    planSteps: seq<PlanStep>, writeSteps: seq<WriteStep>, files: map<Path, File>, now: int, k: nat)
    requires k < |targets| == |planSteps| == |writeSteps|
  {
    var plan := PlanAt(seen, scope, targets, planSteps, files, now, k);
    var planned := AfterEdits(files, now, PlanEdits(planSteps, |planSteps|));
    plan.Ok? && WriteFits(log, plan.value, writeSteps, planned, now, k)
  }

  /** Target `k` can be planned, and why its plan cannot be written. */
  ghost predicate TargetFails(
    seen: Reads, scope: string, targets: seq<(Path, FilePatch)>, log: Log,
    planSteps: seq<PlanStep>, writeSteps: seq<WriteStep>, files: map<Path, File>, now: int, k: nat, cause: PatchFailure)
    requires k < |targets| == |planSteps| == |writeSteps|
  {
    var plan := PlanAt(seen, scope, targets, planSteps, files, now, k);
    var planned := AfterEdits(files, now, PlanEdits(planSteps, |planSteps|));
    plan.Ok? && WriteFails(log, plan.value, writeSteps, planned, now, k, cause)
  }

  lemma TargetsFit(
    seen: Reads, scope: string, targets: seq<(Path, FilePatch)>, log: Log, plans: seq<Plan>,
    planSteps: seq<PlanStep>, writeSteps: seq<WriteStep>, files: map<Path, File>, now: int, k: nat)
    requires k < |targets| == |planSteps| == |writeSteps| == |plans|
    requires PlanAt(seen, scope, targets, planSteps, files, now, k) == Ok(plans[k])
    ensures TargetFits(seen, scope, targets, log, planSteps, writeSteps, files, now, k) <==>
            WriteFits(log, plans[k], writeSteps, AfterEdits(files, now, PlanEdits(planSteps, |planSteps|)), now, k)
    ensures var planned := AfterEdits(files, now, PlanEdits(planSteps, |planSteps|));
            forall cause :: TargetFails(seen, scope, targets, log, planSteps, writeSteps, files, now, k, cause) <==>
            WriteFails(log, plans[k], writeSteps, planned, now, k, cause)
  {
    hide PlanAt, WriteFits, WriteFails;
  }

  /** Every target can be planned, and its plan written. */
  ghost predicate AllFit(
    seen: Reads, scope: string, targets: seq<(Path, FilePatch)>, logs: seq<Log>,
    planSteps: seq<PlanStep>, writeSteps: seq<WriteStep>, files: map<Path, File>, now: int)
    requires |targets| == |logs| == |planSteps| == |writeSteps|
  {
    forall k | 0 <= k < |targets| ::
      TargetFits(seen, scope, targets, logs[k], planSteps, writeSteps, files, now, k)
  }

  ghost predicate Twice(targets: seq<(Path, FilePatch)>, cause: PatchFailure) {
    exists j, k | 0 <= j < k < |targets| :: targets[j].0 == targets[k].0 && cause == DuplicatePath(targets[k].0)
  }

  /** Why the first target that cannot be planned cannot. */
  ghost predicate PlanFails(
    seen: Reads, scope: string, targets: seq<(Path, FilePatch)>, steps: seq<PlanStep>, files: map<Path, File>, now: int,
    cause: PatchFailure)
    requires |targets| == |steps|
  {
    exists k | 0 <= k < |targets| ::
      && PlanAt(seen, scope, targets, steps, files, now, k) == Err(cause)
      && forall j | 0 <= j < k :: PlanAt(seen, scope, targets, steps, files, now, j).Ok?
  }

  /** Why the first target that cannot be written cannot; those before it can. */
  ghost predicate FirstWriteFails(
    seen: Reads, scope: string, targets: seq<(Path, FilePatch)>, logs: seq<Log>,
    planSteps: seq<PlanStep>, writeSteps: seq<WriteStep>, files: map<Path, File>, now: int, cause: PatchFailure)
    requires |targets| == |logs| == |planSteps| == |writeSteps|
  {
    && (forall k | 0 <= k < |targets| :: PlanAt(seen, scope, targets, planSteps, files, now, k).Ok?)
    && exists k | 0 <= k < |targets| ::
         && TargetFails(seen, scope, targets, logs[k], planSteps, writeSteps, files, now, k, cause)
         && forall j | 0 <= j < k ::
              TargetFits(seen, scope, targets, logs[j], planSteps, writeSteps, files, now, j)
  }

  lemma NotPlanned(
    seen: Reads, scope: string, targets: seq<(Path, FilePatch)>, logs: seq<Log>,
    planSteps: seq<PlanStep>, writeSteps: seq<WriteStep>, files: map<Path, File>, now: int, k: nat, cause: PatchFailure)
    requires k < |targets| == |logs| == |planSteps| == |writeSteps|
    requires PlanAt(seen, scope, targets, planSteps, files, now, k) == Err(cause)
    requires forall j | 0 <= j < k :: PlanAt(seen, scope, targets, planSteps, files, now, j).Ok?
    ensures !AllFit(seen, scope, targets, logs, planSteps, writeSteps, files, now)
    ensures PlanFails(seen, scope, targets, planSteps, files, now, cause)
  {
    hide PlanAt, WriteFits;
    assert !TargetFits(seen, scope, targets, logs[k], planSteps, writeSteps, files, now, k);
  }

  lemma AllPlanned(
    seen: Reads, scope: string, targets: seq<(Path, FilePatch)>, logs: seq<Log>, plans: seq<Plan>,
    planSteps: seq<PlanStep>, writeSteps: seq<WriteStep>, files: map<Path, File>, now: int, planned: map<Path, File>)
    requires |targets| == |logs| == |planSteps| == |writeSteps| == |plans|
    requires forall k | 0 <= k < |targets| :: PlanAt(seen, scope, targets, planSteps, files, now, k) == Ok(plans[k])
    requires planned == AfterEdits(files, now, PlanEdits(planSteps, |planSteps|))
    ensures AllFit(seen, scope, targets, logs, planSteps, writeSteps, files, now) <==>
            forall k | 0 <= k < |plans| :: WriteFits(logs[k], plans[k], writeSteps, planned, now, k)
  {
    hide PlanAt, WriteFits, TargetFits;
    forall k | 0 <= k < |targets|
      ensures TargetFits(seen, scope, targets, logs[k], planSteps, writeSteps, files, now, k) <==>
              WriteFits(logs[k], plans[k], writeSteps, planned, now, k)
    {
      TargetsFit(seen, scope, targets, logs[k], plans, planSteps, writeSteps, files, now, k);
    }
  }

  lemma NotWritten(
    seen: Reads, scope: string, targets: seq<(Path, FilePatch)>, logs: seq<Log>, plans: seq<Plan>,
    planSteps: seq<PlanStep>, writeSteps: seq<WriteStep>, files: map<Path, File>, now: int, planned: map<Path, File>,
    k: nat, cause: PatchFailure)
    requires k < |targets| == |logs| == |planSteps| == |writeSteps| == |plans|
    requires forall j | 0 <= j < |targets| :: PlanAt(seen, scope, targets, planSteps, files, now, j) == Ok(plans[j])
    requires planned == AfterEdits(files, now, PlanEdits(planSteps, |planSteps|))
    requires WriteFails(logs[k], plans[k], writeSteps, planned, now, k, cause)
    requires forall j | 0 <= j < k :: WriteFits(logs[j], plans[j], writeSteps, planned, now, j)
    ensures FirstWriteFails(seen, scope, targets, logs, planSteps, writeSteps, files, now, cause)
  {
    hide PlanAt, WriteFits, WriteFails, TargetFits, TargetFails;
    TargetsFit(seen, scope, targets, logs[k], plans, planSteps, writeSteps, files, now, k);
    forall j | 0 <= j < k
      ensures TargetFits(seen, scope, targets, logs[j], planSteps, writeSteps, files, now, j)
    {
      TargetsFit(seen, scope, targets, logs[j], plans, planSteps, writeSteps, files, now, j);
    }
  }

  // ---------- the histories ----------

  class History {
    const disk: Disk
    var files: map<Path, Timeline>
    var lastRead: Reads

    ghost predicate Valid()
      reads this, files.Values
    {
      && (forall p | p in files :: files[p].Valid())
      && (forall p, q | p in files && q in files && p != q :: files[p] != files[q])
    }

    ghost function LogAt(p: Path): Log
      reads this, files.Values
    {
      if p in files then files[p].View() else EMPTY
    }

    ghost function LogsOf(targets: seq<(Path, FilePatch)>): (logs: seq<Log>)
      reads this, files.Values
      ensures |logs| == |targets| && forall k | 0 <= k < |targets| :: logs[k] == LogAt(targets[k].0)
    {
      seq(|targets|, k requires 0 <= k < |targets| reads this, files.Values => LogAt(targets[k].0))
    }

    constructor (disk: Disk)
      ensures Valid() && this.disk == disk && files == map[] && lastRead == map[]
    {
      this.disk, files, lastRead := disk, map[], map[];
    }

    /** The timeline of `path`, a new one for a path not seen before. */
    method TimelineAt(path: Path) returns (t: Timeline)
      requires Valid()
      modifies this`files
      ensures Valid() && path in files && files[path] == t
      ensures fresh(files.Values - old(files.Values))
      ensures forall p :: LogAt(p) == old(LogAt(p))
    {
      if path in files {
        return files[path];
      }
      t := new Timeline();
      files := files[path := t];
    }

    /** Other programs edit files. */
    method OtherPrograms(edits: seq<Edit>)
      modifies disk`files
      ensures disk.files == AfterEdits(old(disk.files), disk.now, edits)
    {
      var k := 0;
      assert edits[..0] == [];
      while k < |edits|
        invariant 0 <= k <= |edits|
        invariant disk.files == AfterEdits(old(disk.files), disk.now, edits[..k])
      {
        assert edits[..k + 1][..k] == edits[..k];
        disk.files := Edited(disk.files, disk.now, edits[k]);
        k := k + 1;
      }
      assert edits[..k] == edits;
    }

    /** Write one planned file, provided it is still as it was planned for. */
    method WriteOne(scope: string, plan: Plan, step: WriteStep) returns (r: Result<Done, PatchFailure>)
      requires Valid()
      modifies this, disk, files.Values
      ensures Valid() && fresh(files.Values - old(files.Values))
      ensures disk.now == old(disk.now)
      ensures forall p | p != plan.path :: LogAt(p) == old(LogAt(p))
      ensures disk.files - {plan.path} == old(disk.files) - {plan.path}
      ensures r.Ok? <==> CanWrite(old(LogAt(plan.path)), plan, step, old(ContentAt(disk.files, plan.path)))
      ensures r.Err? ==>
        && LogAt(plan.path) == old(LogAt(plan.path))
        && ContentAt(disk.files, plan.path) == old(ContentAt(disk.files, plan.path))
        && lastRead == old(lastRead)
        && LogAt(plan.path).current <= |LogAt(plan.path).changes|
        && r.error == WriteError(LogAt(plan.path), plan, step, ContentAt(disk.files, plan.path))
      ensures r.Ok? ==>
        && WroteOver(old(LogAt(plan.path)), LogAt(plan.path), plan, old(disk.At(plan.path)), step.env)
        && r.value == Done(plan.path, LogAt(plan.path).current, old(LogAt(plan.path)).current)
        && StampOf(old(ContentAt(disk.files, plan.path))) == plan.stamp
        && ContentAt(disk.files, plan.path) == plan.content
        && lastRead == if step.noteFails then old(lastRead)
                       else old(lastRead)[(scope, plan.path) := StampOf(plan.content)]
    {
      hide Mutated, ValidTree, RedoChain, MovesKnown, CanWrite;
      var t := TimelineAt(plan.path);
      WriteGivesContent(t.View(), disk.At(plan.path), plan.content, step.env);
      CanWriteIs(t.View(), plan, step, disk.At(plan.path));
      if step.env.readFails {
        return Err(FileFails(plan.path, Io));
      }
      if StampOf(disk.At(plan.path).Content()) != plan.stamp {
        return Err(ChangedSinceRead(plan.path));
      }
      var previous := t.current;
      var revision := t.Mutate(disk, plan.path, OperationFor(plan.content), plan.content.GetOr(""), step.env);
      if revision.Err? {
        return Err(FileFails(plan.path, revision.error));
      }
      if !step.noteFails {
        lastRead := lastRead[(scope, plan.path) := StampOf(disk.At(plan.path).Content())];
      }
      return Ok(Done(plan.path, revision.value, previous));
    }

    /** Put one written file back as it was before the patch. */
    method PutBackOne(d: Done, back: Env) returns (done: bool)
      requires Valid()
      modifies this, disk, files.Values
      ensures Valid() && fresh(files.Values - old(files.Values))
      ensures disk.now == old(disk.now)
      ensures lastRead == old(lastRead)
      ensures forall p | p != d.path :: LogAt(p) == old(LogAt(p))
      ensures disk.files - {d.path} == old(disk.files) - {d.path}
      ensures var o := RestoredTo(old(LogAt(d.path)), old(disk.At(d.path)), d.previous, back);
              done == o.result.Ok? && LogAt(d.path) == o.log && disk.At(d.path) == o.site
      ensures forall p :: LogAt(p).changes == old(LogAt(p)).changes
      ensures forall p :: old(LogAt(p)).redo == [] ==> LogAt(p).redo == []
    {
      hide RestoredTo, ValidTree, RedoChain, MovesKnown;
      var t := TimelineAt(d.path);
      PuttingBackKeepsTree(t.View(), disk.At(d.path), d.previous, back);
      var r := t.RestoreTo(disk, d.path, d.previous, back);
      return r.Ok?;
    }

    /** One write, after what other programs did meanwhile. `without` and
        `after` are what the disk would hold without the patch. */
    method WriteNext(scope: string, plan: Plan, step: WriteStep, ghost without: map<Path, File>)
      returns (r: Result<Done, PatchFailure>, ghost after: map<Path, File>)
      requires Valid() && ContentAt(disk.files, plan.path) == ContentAt(without, plan.path)
      modifies this, disk, files.Values
      ensures Valid() && fresh(files.Values - old(files.Values))
      ensures disk.now == old(disk.now) && after == AfterEdits(without, disk.now, step.edits)
      ensures forall p | p != plan.path :: LogAt(p) == old(LogAt(p))
      ensures forall p | p != plan.path && old(ContentAt(disk.files, p)) == ContentAt(without, p) ::
                ContentAt(disk.files, p) == ContentAt(after, p)
      ensures forall p | p != plan.path && !Touches(step.edits, p) ::
                && ContentAt(disk.files, p) == old(ContentAt(disk.files, p))
                && ContentAt(after, p) == ContentAt(without, p)
      ensures r.Ok? <==> CanWrite(old(LogAt(plan.path)), plan, step, ContentAt(after, plan.path))
      ensures r.Err? ==>
        && LogAt(plan.path) == old(LogAt(plan.path))
        && ContentAt(disk.files, plan.path) == ContentAt(after, plan.path)
        && lastRead == old(lastRead)
        && LogAt(plan.path).current <= |LogAt(plan.path).changes|
        && r.error == WriteError(LogAt(plan.path), plan, step, ContentAt(after, plan.path))
      ensures r.Ok? ==>
        && WroteAs(old(LogAt(plan.path)), LogAt(plan.path), plan, r.value)
        && ContentAt(disk.files, plan.path) == plan.content
        && StampOf(ContentAt(after, plan.path)) == plan.stamp
        && lastRead == if step.noteFails then old(lastRead)
                       else old(lastRead)[(scope, plan.path) := StampOf(plan.content)]
    {
      hide WroteOver, AfterEdits, ContentAt, ValidTree, RedoChain, MovesKnown, Mutated, CanWrite, WriteError;
      EditsAreLocalEverywhere(disk.files, without, disk.now, step.edits);
      EditsAreLocalEverywhere(without, without, disk.now, step.edits);
      OtherPrograms(step.edits);
      after := AfterEdits(without, disk.now, step.edits);
      label M:
      r := WriteOne(scope, plan, step);
      ContentElsewhere(old@M(disk.files), disk.files, plan.path);
    }

    /** Write the planned files one after the other, stopping at the first that
        fails. `without` is what the disk would hold without the patch. */
    method WriteAll(scope: string, plans: seq<Plan>, steps: seq<WriteStep>)
      returns (done: seq<Done>, failure: Option<PatchFailure>, ghost without: map<Path, File>)
      requires Valid() && Distinct(plans) && |steps| == |plans| && Undisturbed(plans, steps)
      modifies this, disk, files.Values
      ensures Valid() && fresh(files.Values - old(files.Values))
      ensures disk.now == old(disk.now)
      ensures if failure.None? then |done| == |plans| else |done| < |plans|
      ensures failure.None? <==> forall k | 0 <= k < |plans| ::
        WriteFits(old(LogAt(plans[k].path)), plans[k], steps, old(disk.files), disk.now, k)
      ensures failure.Some? ==> forall k | 0 <= k < |done| ::
        WriteFits(old(LogAt(plans[k].path)), plans[k], steps, old(disk.files), disk.now, k)
      ensures failure.Some? ==> var k := |done|;
        WriteFails(old(LogAt(plans[k].path)), plans[k], steps, old(disk.files), disk.now, k, failure.value)
      ensures without == AfterEdits(old(disk.files), disk.now, AllEdits(steps, Ran(done, failure)))
      ensures forall k | 0 <= k < |done| ::
                WroteAs(old(LogAt(plans[k].path)), LogAt(plans[k].path), plans[k], done[k])
      ensures forall p | !Plans(plans[..|done|], p) :: LogAt(p) == old(LogAt(p))
      ensures Landed(disk.files, without, plans, |done|)
      ensures ReadOn(old(lastRead), lastRead, scope, plans, steps, |done|)
    {
      hide WroteAs, AfterEdits, ContentAt, Touches, Plans, Distinct, Undisturbed, Landed, ReadOn;
      hide ValidTree, RedoChain, MovesKnown, History.LogAt, CanWrite, WriteFits, WriteFails, WriteError;
      done, failure, without := [], None, disk.files;
      NoEdits(disk.files, disk.now);
      NothingLanded(disk.files, plans, lastRead, scope, steps);
      while |done| < |plans|
        invariant |done| <= |plans| && failure == None
        invariant Valid() && fresh(files.Values - old(files.Values))
        invariant disk.now == old(disk.now)
        invariant without == AfterEdits(old(disk.files), disk.now, AllEdits(steps, |done|))
        invariant forall k | 0 <= k < |done| ::
          WroteAs(old(LogAt(plans[k].path)), LogAt(plans[k].path), plans[k], done[k])
        invariant forall k | 0 <= k < |done| ::
          WriteFits(old(LogAt(plans[k].path)), plans[k], steps, old(disk.files), disk.now, k)
        invariant forall p | !Plans(plans[..|done|], p) :: LogAt(p) == old(LogAt(p))
        invariant Landed(disk.files, without, plans, |done|)
        invariant ReadOn(old(lastRead), lastRead, scope, plans, steps, |done|)
        decreases |plans| - |done|
      {
        var k := |done|;
        ghost var before, wout := disk.files, without;
        EditsCompose(old(disk.files), disk.now, AllEdits(steps, k), steps[k].edits);
        PlansGrow(plans, k);
        NextIsUntouched(before, wout, plans, k);
        ReadsGrow(old(lastRead), lastRead, scope, plans, steps, k);
        var d;
        d, without := WriteNext(scope, plans[k], steps[k], without);
        LandedGrows(before, wout, disk.files, without, plans, steps, k);
        FitsIs(old(LogAt(plans[k].path)), plans[k], steps, old(disk.files), disk.now, k, without);
        if d.Err? {
          failure := Some(d.error);
          return;
        }
        done := done + [d.value];
      }
    }

    /** Put back the written files, the last one first, and list those that
        could not be. */
    method PutBackAll(plans: seq<Plan>, done: seq<Done>, backs: seq<Env>, ghost without: map<Path, File>)
      returns (still: seq<Path>)
      requires Valid() && Distinct(plans) && |done| <= |plans| == |backs|
      requires forall k | 0 <= k < |done| :: CanBePutBack(LogAt(plans[k].path), plans[k], done[k])
      requires Landed(disk.files, without, plans, |done|)
      modifies this, disk, files.Values
      ensures Valid() && fresh(files.Values - old(files.Values))
      ensures disk.now == old(disk.now)
      ensures lastRead == old(lastRead)
      ensures forall k | 0 <= k < |done| ::
                if plans[k].path in still then backs[k].readFails || backs[k].commitFails
                else LogAt(plans[k].path).current == done[k].previous
      ensures forall p | !Plans(plans[..|done|], p) :: LogAt(p) == old(LogAt(p)) && p !in still
      ensures forall p :: LogAt(p).changes == old(LogAt(p)).changes
      ensures forall p :: old(LogAt(p)).redo == [] ==> LogAt(p).redo == []
      ensures forall p | p !in still :: ContentAt(disk.files, p) == ContentAt(without, p)
    {
      hide Wrote, ContentAt, ValidTree, RedoChain, MovesKnown, RestoredTo, Plans, Landed, PutBack;
      still := [];
      var k := |done|;
      NothingPutBack(disk.files, without, plans, |done|);
      while k > 0
        invariant 0 <= k <= |done|
        invariant Valid() && fresh(files.Values - old(files.Values))
        invariant disk.now == old(disk.now)
        invariant lastRead == old(lastRead)
        invariant forall j | 0 <= j < k :: CanBePutBack(LogAt(plans[j].path), plans[j], done[j])
        invariant forall j | k <= j < |done| ::
                    if plans[j].path in still then backs[j].readFails || backs[j].commitFails
                    else LogAt(plans[j].path).current == done[j].previous
        invariant forall p | !Plans(plans[..|done|], p) :: LogAt(p) == old(LogAt(p))
        invariant forall p :: LogAt(p).changes == old(LogAt(p)).changes
        invariant forall p :: old(LogAt(p)).redo == [] ==> LogAt(p).redo == []
        invariant PutBack(disk.files, without, plans, |done|, k, still)
      {
        k := k - 1;
        ghost var site := disk.At(plans[k].path);
        IsOnDisk(disk.files, without, plans, |done|, k, still, site);
        CanReturn(LogAt(plans[k].path), plans[k], done[k], site, backs[k]);
        ghost var before := disk.files;
        var ok := PutBackOne(done[k], backs[k]);
        PutBackGrows(before, disk.files, without, plans, |done|, k, still, ok, disk.At(plans[k].path));
        if !ok {
          still := still + [done[k].path];
        }
      }
      AllPutBack(disk.files, without, plans, |done|, still);
    }

    /** Plan one file from what the scope read and what the file holds. */
    method PlanOne(scope: string, path: Path, patch: FilePatch, readFails: bool) returns (r: Result<Plan, PatchFailure>)
      requires Valid()
      modifies this`files
      ensures Valid() && fresh(files.Values - old(files.Values))
      ensures forall p :: LogAt(p) == old(LogAt(p))
      ensures r == PlanFor(lastRead, scope, path, patch, disk.At(path), readFails)
    {
      hide Applied;
      var _ := TimelineAt(path);
      if readFails {
        return Err(FileFails(path, Io));
      }
      var bytes := disk.At(path).Content();
      if patch.oldPath.None? {
        if bytes.Some? {
          return Err(AlreadyExists(path));
        }
      } else {
        if (scope, path) !in lastRead {
          return Err(NotRead(path));
        }
        if lastRead[(scope, path)] != StampOf(bytes) {
          return Err(ChangedSinceRead(path));
        }
        if bytes.None? {
          return Err(FileFails(path, NotFound));
        }
        if !Utf8(bytes.value) {
          return Err(InvalidUtf8(path));
        }
      }
      var changed := ApplyPatch(bytes.GetOr(""), patch);
      if changed.Err? {
        return Err(HunkFails(path, changed.error));
      }
      if patch.newPath.Some? {
        return Ok(Plan(path, StampOf(bytes), Some(changed.value)));
      }
      return if changed.value != "" then Err(RemoveLeavesLines(path)) else Ok(Plan(path, StampOf(bytes), None));
    }

    /** Plan every file; nothing is written. */
    method PlanAll(scope: string, targets: seq<(Path, FilePatch)>, steps: seq<PlanStep>)
      returns (r: Result<seq<Plan>, PatchFailure>, ghost ran: nat)
      requires Valid() && |steps| == |targets|
      modifies this`files, disk`files
      ensures Valid() && fresh(files.Values - old(files.Values))
      ensures forall p :: LogAt(p) == old(LogAt(p))
      ensures ran <= |steps| && disk.files == AfterEdits(old(disk.files), disk.now, PlanEdits(steps, ran))
      ensures r.Ok? ==> ran == |steps| && |r.value| == |targets| && AllFollow(lastRead, scope, targets, r.value)
      ensures r.Ok? <==> forall k | 0 <= k < |targets| ::
        PlanAt(lastRead, scope, targets, steps, old(disk.files), disk.now, k).Ok?
      ensures r.Ok? ==> forall k | 0 <= k < |targets| ::
        PlanAt(lastRead, scope, targets, steps, old(disk.files), disk.now, k) == Ok(r.value[k])
      ensures r.Err? ==>
        && 0 < ran <= |targets|
        && PlanAt(lastRead, scope, targets, steps, old(disk.files), disk.now, ran - 1) == Err(r.error)
        && forall k | 0 <= k < ran - 1 :: PlanAt(lastRead, scope, targets, steps, old(disk.files), disk.now, k).Ok?
    {
      hide AfterEdits, FollowsRead, PlanFor, ValidTree, RedoChain, MovesKnown, Holding, History.LogAt;
      ran := 0;
      var plans: seq<Plan> := [];
      NoEdits(disk.files, disk.now);
      while |plans| < |targets|
        invariant ran == |plans| <= |targets|
        invariant Valid() && fresh(files.Values - old(files.Values))
        invariant forall p :: LogAt(p) == old(LogAt(p))
        invariant disk.files == AfterEdits(old(disk.files), disk.now, PlanEdits(steps, ran))
        invariant AllFollow(lastRead, scope, targets[..|plans|], plans)
        invariant forall k | 0 <= k < |plans| ::
          PlanAt(lastRead, scope, targets, steps, old(disk.files), disk.now, k) == Ok(plans[k])
        decreases |targets| - |plans|
      {
        var k := |plans|;
        EditsCompose(old(disk.files), disk.now, PlanEdits(steps, k), steps[k].edits);
        OtherPrograms(steps[k].edits);
        ran := ran + 1;
        PlanIsOfContent(lastRead, scope, targets[k].0, targets[k].1, disk.At(targets[k].0), steps[k].readFails);
        var plan := PlanOne(scope, targets[k].0, targets[k].1, steps[k].readFails);
        assert PlanAt(lastRead, scope, targets, steps, old(disk.files), disk.now, k) == plan;
        if plan.Err? {
          return Err(plan.error), ran;
        }
        PlansFollowReads(lastRead, scope, targets[k].0, targets[k].1, disk.At(targets[k].0), steps[k].readFails);
        plans := plans + [plan.value];
      }
      assert targets[..|plans|] == targets;
      return Ok(plans), ran;
    }

    /** What the scope had read of the planned files, to put it back if a write
        fails. */
    method EarlierReads(scope: string, plans: seq<Plan>) returns (earlier: seq<Option<Option<Stamp>>>)
      ensures |earlier| == |plans|
      ensures forall k | 0 <= k < |plans| :: earlier[k] == ReadBy(lastRead, scope, plans[k].path)
    {
      earlier := [];
      while |earlier| < |plans|
        invariant |earlier| <= |plans|
        invariant forall k | 0 <= k < |earlier| :: earlier[k] == ReadBy(lastRead, scope, plans[k].path)
        decreases |plans| - |earlier|
      {
        var key := (scope, plans[|earlier|].path);
        earlier := earlier + [if key in lastRead then Some(lastRead[key]) else None];
      }
    }

    method RestoreReads(scope: string, plans: seq<Plan>, earlier: seq<Option<Option<Stamp>>>, ghost before: Reads)
      requires |earlier| == |plans|
      requires forall k | 0 <= k < |plans| :: earlier[k] == ReadBy(before, scope, plans[k].path)
      requires lastRead - Keys(scope, plans) == before - Keys(scope, plans)
      modifies this`lastRead
      ensures lastRead == before
    {
      var k := 0;
      while k < |plans|
        invariant 0 <= k <= |plans|
        invariant lastRead - Keys(scope, plans[k..]) == before - Keys(scope, plans[k..])
      {
        var key := (scope, plans[k].path);
        KeysShrink(lastRead, before, scope, plans, k);
        lastRead := if earlier[k].Some? then lastRead[key := earlier[k].value] else lastRead - {key};
        k := k + 1;
      }
      assert Keys(scope, plans[k..]) == {};
      assert lastRead - {} == lastRead && before - {} == before;
    }

    /** Write every plan, or put back what was written. */
    method CommitPlans(scope: string, plans: seq<Plan>, steps: seq<WriteStep>, backs: seq<Env>)
      returns (r: Result<seq<Done>, PatchError>, ghost without: map<Path, File>, ghost ran: nat)
      requires Valid() && Distinct(plans) && |steps| == |plans| == |backs| && Undisturbed(plans, steps)
      modifies this, disk, files.Values
      ensures Valid() && disk.now == old(disk.now)
      ensures ran <= |steps| && without == AfterEdits(old(disk.files), disk.now, AllEdits(steps, ran))
      ensures r.Ok? ==> |r.value| == |plans|
      ensures r.Ok? <==> forall k | 0 <= k < |plans| ::
        WriteFits(old(LogAt(plans[k].path)), plans[k], steps, old(disk.files), disk.now, k)
      ensures r.Err? ==>
        && 0 < ran
        && WriteFails(old(LogAt(plans[ran - 1].path)), plans[ran - 1], steps, old(disk.files), disk.now, ran - 1,
                      r.error.cause)
        && forall k | 0 <= k < ran - 1 ::
             WriteFits(old(LogAt(plans[k].path)), plans[k], steps, old(disk.files), disk.now, k)
      ensures r.Ok? ==> forall k | 0 <= k < |plans| ::
        WroteAs(old(LogAt(plans[k].path)), LogAt(plans[k].path), plans[k], r.value[k])
      ensures r.Ok? ==>
        && (forall p | !Plans(plans, p) :: LogAt(p) == old(LogAt(p)))
        && Landed(disk.files, without, plans, |plans|)
        && ReadOn(old(lastRead), lastRead, scope, plans, steps, |plans|)
      ensures r.Err? ==> lastRead == old(lastRead)
      ensures r.Err? ==> forall p | !Plans(plans, p) :: LogAt(p) == old(LogAt(p))
      ensures r.Err? ==> forall p :: RolledBack(old(LogAt(p)), LogAt(p))
      ensures forall p :: Grew(old(LogAt(p)), LogAt(p))
      ensures r.Err? ==> forall p | p !in r.error.stillChanged ::
        LogAt(p).current == old(LogAt(p).current) && ContentAt(disk.files, p) == ContentAt(without, p)
      ensures r.Err? ==> forall p | p in r.error.stillChanged :: BackFailed(plans, backs, p)
    {
      hide Wrote, AfterEdits, ContentAt, Touches, Plans, Distinct, Undisturbed, Landed, ReadOn;
      hide ValidTree, RedoChain, MovesKnown, Grew, RolledBack, WroteAs, WriteFits, WriteFails;
      var earlier := EarlierReads(scope, plans);
      ghost var readBefore := lastRead;
      var done, failure;
      done, failure, without := WriteAll(scope, plans, steps);
      ran := Ran(done, failure);
      forall p ensures Grew(old(LogAt(p)), LogAt(p)) {
        if Plans(plans[..|done|], p) {
          var k := IndexOfPlan(plans, |done|, p);
          WroteGrows(old(LogAt(plans[k].path)), LogAt(plans[k].path), plans[k], done[k]);
        } else {
          SameGrew(LogAt(p));
        }
      }
      if failure.None? {
        assert plans[..|done|] == plans;
        return Ok(done), without, ran;
      }
      ReadOnKeeps(readBefore, lastRead, scope, plans, steps, |done|);
      label W:
      var still := PutBackAll(plans, done, backs, without);
      RestoreReads(scope, plans, earlier, readBefore);
      forall p
        ensures p !in still ==> LogAt(p).current == old(LogAt(p).current)
        ensures p in still ==> BackFailed(plans, backs, p)
        ensures !Plans(plans, p) ==> LogAt(p) == old(LogAt(p))
        ensures Grew(old(LogAt(p)), LogAt(p))
        ensures RolledBack(old(LogAt(p)), LogAt(p))
      {
        SameTreeGrew(old(LogAt(p)), old@W(LogAt(p)), LogAt(p));
        FewerPlans(plans, |done|, p);
        if Plans(plans[..|done|], p) {
          var k := IndexOfPlan(plans, |done|, p);
          WroteFrom(old(LogAt(plans[k].path)), old@W(LogAt(plans[k].path)), plans[k], done[k]);
          WroteOnce(old(LogAt(plans[k].path)), old@W(LogAt(plans[k].path)), plans[k], done[k]);
          StillRolledBack(old(LogAt(p)), old@W(LogAt(p)), LogAt(p));
        } else {
          SameRolledBack(LogAt(p));
        }
      }
      return Err(PatchError(failure.value, still)), without, ran;
    }

    /** Write the plans of the targets, or put back what was written. */
    method CommitTargets(
      scope: string, targets: seq<(Path, FilePatch)>, plans: seq<Plan>, steps: seq<WriteStep>, backs: seq<Env>)
      returns (r: Result<seq<(Path, nat)>, PatchError>, ghost without: map<Path, File>, ghost ran: nat)
      requires Valid() && |targets| == |steps| == |backs|
      requires DistinctTargets(targets) && AllFollow(lastRead, scope, targets, plans)
      requires forall j, k | 0 <= j < k < |targets| :: !Touches(steps[k].edits, targets[j].0)
      modifies this, disk, files.Values
      ensures Valid() && disk.now == old(disk.now)
      ensures ran <= |steps| && without == AfterEdits(old(disk.files), disk.now, AllEdits(steps, ran))
      ensures r.Ok? <==> forall k | 0 <= k < |plans| ::
        WriteFits(old(LogAt(targets[k].0)), plans[k], steps, old(disk.files), disk.now, k)
      ensures r.Err? ==>
        && 0 < ran
        && WriteFails(old(LogAt(targets[ran - 1].0)), plans[ran - 1], steps, old(disk.files), disk.now, ran - 1,
                      r.error.cause)
        && forall k | 0 <= k < ran - 1 ::
             WriteFits(old(LogAt(targets[k].0)), plans[k], steps, old(disk.files), disk.now, k)
      ensures r.Ok? ==>
        && |r.value| == |targets|
        && forall k | 0 <= k < |targets| ::
             && HoldsPatch(old(lastRead), scope, targets[k], old(LogAt(targets[k].0)), LogAt(targets[k].0),
                        ContentAt(disk.files, targets[k].0))
             && r.value[k] == (targets[k].0, LogAt(targets[k].0).current)
             && (steps[k].noteFails ||
                 ReadBy(lastRead, scope, targets[k].0) == Some(StampOf(ContentAt(disk.files, targets[k].0))))
      ensures r.Ok? ==> forall p | !IsTarget(targets, p) ::
        LogAt(p) == old(LogAt(p)) && ContentAt(disk.files, p) == ContentAt(without, p)
      ensures r.Ok? ==> forall s, p | s != scope || !IsTarget(targets, p) ::
        ReadBy(lastRead, s, p) == old(ReadBy(lastRead, s, p))
      ensures forall p :: Grew(old(LogAt(p)), LogAt(p))
      ensures r.Err? ==> forall p | !IsTarget(targets, p) :: LogAt(p) == old(LogAt(p))
      ensures r.Err? ==> forall p :: RolledBack(old(LogAt(p)), LogAt(p))
      ensures r.Err? ==> lastRead == old(lastRead)
      ensures r.Err? ==> forall p | p !in r.error.stillChanged ::
        LogAt(p).current == old(LogAt(p).current) && ContentAt(disk.files, p) == ContentAt(without, p)
      ensures r.Err? ==> forall p | p in r.error.stillChanged :: PutBackFailed(targets, backs, p)
    {
      hide Wrote, WroteAs, AfterEdits, ContentAt, Touches, Plans, Distinct, Undisturbed, Landed, ReadOn, AllFollow;
      hide HoldsPatch, IsTarget, BackFailed, PutBackFailed, ReadBy, ValidTree, RedoChain, MovesKnown;
      hide Grew, RolledBack, WriteFits, WriteFails;
      PlansAreDistinct(lastRead, scope, targets, plans, steps);
      var done;
      done, without, ran := CommitPlans(scope, plans, steps, backs);
      if done.Err? {
        BackFailedAt(targets, plans, backs);
        return Err(done.error), without, ran;
      }
      forall k | 0 <= k < |targets|
        ensures HoldsPatch(old(lastRead), scope, targets[k], old(LogAt(targets[k].0)), LogAt(targets[k].0),
                           ContentAt(disk.files, targets[k].0))
        ensures done.value[k].path == targets[k].0 && done.value[k].revision == LogAt(targets[k].0).current
        ensures steps[k].noteFails ||
                ReadBy(lastRead, scope, targets[k].0) == Some(StampOf(ContentAt(disk.files, targets[k].0)))
      {
        OneSucceeds(old(lastRead), lastRead, scope, targets, plans, steps, disk.files, without, k,
                    old(LogAt(targets[k].0)), LogAt(targets[k].0), done.value[k]);
      }
      LandedElsewhere(disk.files, without, targets, plans);
      OtherReadsKept(old(lastRead), lastRead, scope, targets, plans, steps);
      var revisions := seq(|done.value|, k requires 0 <= k < |done.value| =>
        (done.value[k].path, done.value[k].revision));
      return Ok(revisions), without, ran;
    }

    /** Patches many files together. It succeeds exactly when the paths differ, every
        file can be planned, and every write finds its file as planned, as its
        history left it, and on a disk that works.

        On success every file holds its patch applied to what the scope had
        read, as one new revision on top of the one it was at. On failure, for
        whatever reason, the scope's reads are as before, and every file is at
        the revision it was at and holds what it would hold without the patch,
        but for those listed as still changed; and a file is listed only when
        the disk failed while putting it back. Either way no revision is lost,
        and nothing changes for files and reads the patch is not about. */
    method Patch(
      scope: string, targets: seq<(Path, FilePatch)>,
      planSteps: seq<PlanStep>, writeSteps: seq<WriteStep>, backs: seq<Env>)
      returns (r: Result<seq<(Path, nat)>, PatchError>, ghost without: map<Path, File>)
      requires Valid() && |targets| == |planSteps| == |writeSteps| == |backs|
      requires forall j, k | 0 <= j < k < |targets| :: !Touches(writeSteps[k].edits, targets[j].0)
      modifies this, disk, files.Values
      ensures Valid()
      ensures OnlyEdits(old(disk.files), without, disk.now, planSteps, writeSteps)
      ensures r.Ok? <==>
        && DistinctTargets(targets)
        && AllFit(old(lastRead), scope, targets, old(LogsOf(targets)), planSteps, writeSteps, old(disk.files), disk.now)
      ensures r.Err? ==> if !DistinctTargets(targets) then Twice(targets, r.error.cause) else
        || PlanFails(old(lastRead), scope, targets, planSteps, old(disk.files), disk.now, r.error.cause)
        || FirstWriteFails(old(lastRead), scope, targets, old(LogsOf(targets)), planSteps, writeSteps,
                           old(disk.files), disk.now, r.error.cause)
      ensures r.Ok? ==>
        && |r.value| == |targets|
        && forall k | 0 <= k < |targets| ::
             && HoldsPatch(old(lastRead), scope, targets[k], old(LogAt(targets[k].0)), LogAt(targets[k].0),
                        ContentAt(disk.files, targets[k].0))
             && r.value[k] == (targets[k].0, LogAt(targets[k].0).current)
             && (writeSteps[k].noteFails ||
                 ReadBy(lastRead, scope, targets[k].0) == Some(StampOf(ContentAt(disk.files, targets[k].0))))
      ensures r.Ok? ==> forall p | !IsTarget(targets, p) ::
        LogAt(p) == old(LogAt(p)) && ContentAt(disk.files, p) == ContentAt(without, p)
      ensures r.Ok? ==> forall s, p | s != scope || !IsTarget(targets, p) ::
        ReadBy(lastRead, s, p) == old(ReadBy(lastRead, s, p))
      ensures forall p :: Grew(old(LogAt(p)), LogAt(p))
      ensures r.Err? ==> forall p | !IsTarget(targets, p) :: LogAt(p) == old(LogAt(p))
      ensures r.Err? ==> forall p :: RolledBack(old(LogAt(p)), LogAt(p))
      ensures r.Err? ==> lastRead == old(lastRead)
      ensures r.Err? ==> forall p | p !in r.error.stillChanged ::
        LogAt(p).current == old(LogAt(p).current) && ContentAt(disk.files, p) == ContentAt(without, p)
      ensures r.Err? ==> forall p | p in r.error.stillChanged :: PutBackFailed(targets, backs, p)
    {
      hide AfterEdits, ContentAt, Touches, AllFollow;
      hide OnlyEdits, HoldsPatch, IsTarget, PutBackFailed, ReadBy, ValidTree, RedoChain, MovesKnown;
      hide Grew, RolledBack, AllFit, WriteFits, PlanAt, PlanFails, FirstWriteFails, WriteFails;
      hide History.LogAt, History.LogsOf;
      without := disk.files;
      forall p ensures Grew(LogAt(p), LogAt(p)) && RolledBack(LogAt(p), LogAt(p)) {
        SameGrew(LogAt(p));
        SameRolledBack(LogAt(p));
      }
      NothingRan(disk.files, disk.now, planSteps, writeSteps);
      var twice := Duplicate(targets);
      if twice.Some? {
        return Err(PatchError(DuplicatePath(twice.value), [])), without;
      }
      ghost var start := disk.files;
      var plans; ghost var ran;
      plans, ran := PlanAll(scope, targets, planSteps);
      without := disk.files;
      PlansRan(start, disk.now, planSteps, ran, writeSteps);
      ghost var logs := old(LogsOf(targets));
      if plans.Err? {
        NotPlanned(lastRead, scope, targets, logs, planSteps, writeSteps, start, disk.now, ran - 1, plans.error);
        return Err(PatchError(plans.error, [])), without;
      }
      AllPlanned(lastRead, scope, targets, logs, plans.value, planSteps, writeSteps, start, disk.now, disk.files);
      ghost var planned, wrote := disk.files, 0;
      r, without, wrote := CommitTargets(scope, targets, plans.value, writeSteps, backs);
      AllRan(start, planned, disk.now, planSteps, writeSteps, wrote);
      if r.Err? {
        NotWritten(lastRead, scope, targets, logs, plans.value, planSteps, writeSteps, start, disk.now, planned,
                   wrote - 1, r.error.cause);
      }
    }
  }
}
