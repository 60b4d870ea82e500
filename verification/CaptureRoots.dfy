/** Which folders are watched while a call runs. */
module CaptureRoots {
  import opened Base
  import opened FolderLocks

  /** A grant's folder, clipped to the working folder. */
  function Clipped(working: Path, grant: Path): Option<Path> {
    if Inside(working, grant) then Some(working) else if Inside(grant, working) then Some(grant) else None
  }

  /** Some grant clips to this folder. */
  predicate Clips(working: Path, grants: seq<Path>, root: Path) {
    exists k | 0 <= k < |grants| :: Clipped(working, grants[k]) == Some(root)
  }

  predicate Covered(roots: seq<Path>, path: Path) {
    exists k | 0 <= k < |roots| :: Inside(path, roots[k])
  }

  /** The roots do not overlap, each is one of the clipped folders, and each
      clipped folder is inside one. */
  ghost predicate RootsOf(working: Path, grants: seq<Path>, roots: seq<Path>) {
    && Antichain(roots)
    && (forall i | 0 <= i < |roots| :: Clips(working, grants, roots[i]))
    && forall root | Clips(working, grants, root) :: Covered(roots, root)
  }

  method Roots(working: Path, grants: seq<Path>) returns (roots: seq<Path>)
    ensures RootsOf(working, grants, roots)
  {
    hide RootsOf, Clips, Clipped, Covered, Inside, Overlaps, Keeps;
    roots := [];
    NoRoots(working, grants);
    var k: nat := 0;
    while k < |grants|
      invariant k <= |grants| && RootsOf(working, grants[..k], roots)
    {
      var clipped := Clipped(working, grants[k]);
      if clipped.None? || Covered(roots, clipped.value) {
        AlreadyCovered(working, grants, k, roots);
      } else {
        var kept := Without(roots, clipped.value);
        RootsMore(working, grants, k, roots, kept);
        roots := kept + [clipped.value];
      }
      k := k + 1;
    }
    assert grants[..k] == grants;
  }

  /** The roots that are not inside `folder`. */
  method Without(roots: seq<Path>, folder: Path) returns (kept: seq<Path>)
    ensures Keeps(roots, folder, kept)
  {
    hide Keeps, Inside;
    kept := [];
    KeepsNone(folder, roots);
    var k: nat := 0;
    while k < |roots|
      invariant k <= |roots| && Keeps(roots[..k], folder, kept)
    {
      KeepsMore(roots, k, folder, kept);
      if !Inside(roots[k], folder) {
        kept := kept + [roots[k]];
      }
      k := k + 1;
    }
    assert roots[..k] == roots;
  }

  /** `kept` are those of `roots` not inside `folder`; none overlap that did
      not. */
  predicate Keeps(roots: seq<Path>, folder: Path, kept: seq<Path>) {
    && (forall i | 0 <= i < |kept| :: kept[i] in roots && !Inside(kept[i], folder))
    && (forall i | 0 <= i < |roots| && !Inside(roots[i], folder) :: roots[i] in kept)
    && (Antichain(roots) ==> Antichain(kept))
  }

  lemma KeepsNone(folder: Path, roots: seq<Path>)
    ensures Keeps(roots[..0], folder, [])
  {
  }

  lemma KeepsMore(roots: seq<Path>, k: nat, folder: Path, kept: seq<Path>)
    requires k < |roots| && Keeps(roots[..k], folder, kept)
    ensures Keeps(roots[..k + 1], folder, if Inside(roots[k], folder) then kept else kept + [roots[k]])
  {
    hide Inside, Overlaps;
    var less, more, root := roots[..k], roots[..k + 1], roots[k];
    assert more == less + [root];
    assert forall i | 0 <= i < |kept| :: kept[i] in more;
    if Antichain(more) {
      AntichainSplits(less, root);
      forall i | 0 <= i < |kept| ensures !Overlaps(kept[i], root) {
        assert kept[i] in less;
        var j :| 0 <= j < |less| && less[j] == kept[i];
      }
      AntichainSplits(kept, root);
    }
  }

  lemma AntichainSplits(roots: seq<Path>, root: Path)
    ensures Antichain(roots + [root]) <==>
            Antichain(roots) && forall i | 0 <= i < |roots| :: !Overlaps(roots[i], root)
  {
    hide Overlaps;
    var all := roots + [root];
    if Antichain(all) {
      forall i, j | 0 <= i < j < |roots| ensures !Overlaps(roots[i], roots[j]) {
        assert !Overlaps(all[i], all[j]);
      }
      forall i | 0 <= i < |roots| ensures !Overlaps(roots[i], root) {
        assert !Overlaps(all[i], all[|roots|]);
      }
    }
  }

  lemma NoRoots(working: Path, grants: seq<Path>)
    ensures RootsOf(working, grants[..0], [])
  {
  }

  lemma ClipsMore(working: Path, grants: seq<Path>, k: nat, root: Path)
    requires k < |grants|
    ensures Clips(working, grants[..k + 1], root) <==>
            Clips(working, grants[..k], root) || Clipped(working, grants[k]) == Some(root)
  {
    hide Clipped;
    var less, more := grants[..k], grants[..k + 1];
    assert more[k] == grants[k];
    assert forall i | 0 <= i < k :: more[i] == less[i];
  }

  lemma AlreadyCovered(working: Path, grants: seq<Path>, k: nat, roots: seq<Path>)
    requires k < |grants| && RootsOf(working, grants[..k], roots)
    requires var c := Clipped(working, grants[k]); c.None? || Covered(roots, c.value)
    ensures RootsOf(working, grants[..k + 1], roots)
  {
    hide Clips, Clipped, Covered, Antichain;
    forall root
      ensures Clips(working, grants[..k + 1], root) <==>
              Clips(working, grants[..k], root) || Clipped(working, grants[k]) == Some(root)
    {
      ClipsMore(working, grants, k, root);
    }
  }

  lemma RootsMore(working: Path, grants: seq<Path>, k: nat, roots: seq<Path>, kept: seq<Path>)
    requires k < |grants| && RootsOf(working, grants[..k], roots)
    requires Clipped(working, grants[k]).Some? && !Covered(roots, Clipped(working, grants[k]).value)
    requires Keeps(roots, Clipped(working, grants[k]).value, kept)
    ensures RootsOf(working, grants[..k + 1], kept + [Clipped(working, grants[k]).value])
  {
    hide Clips, Clipped, Inside, Covered, Antichain;
    var folder := Clipped(working, grants[k]).value;
    var next := kept + [folder];
    forall i | 0 <= i < |kept| ensures !Overlaps(kept[i], folder) && Clips(working, grants[..k + 1], kept[i]) {
      assert kept[i] in roots;
      var j :| 0 <= j < |roots| && roots[j] == kept[i];
      assert Clips(working, grants[..k], roots[j]);
      ClipsMore(working, grants, k, kept[i]);
      assert !Inside(folder, roots[j]) by { NotInside(roots, j, folder); }
    }
    AntichainSplits(kept, folder);
    ClipsMore(working, grants, k, folder);
    forall root | Clips(working, grants[..k + 1], root) ensures Covered(next, root) {
      ClipsMore(working, grants, k, root);
      if root == folder {
        CoveredBy(next, |kept|, root, folder);
      } else {
        assert Covered(roots, root);
        CoveredStill(roots, folder, kept, root);
      }
    }
  }

  lemma NotInside(roots: seq<Path>, j: nat, path: Path)
    requires j < |roots| && !Covered(roots, path)
    ensures !Inside(path, roots[j])
  {
  }

  lemma CoveredBy(roots: seq<Path>, k: nat, path: Path, through: Path)
    requires k < |roots| && Inside(path, through) && Inside(through, roots[k])
    ensures Covered(roots, path)
  {
    assert Inside(path, roots[k]);
  }

  lemma CoveredStill(roots: seq<Path>, folder: Path, kept: seq<Path>, path: Path)
    requires Covered(roots, path) && Keeps(roots, folder, kept)
    ensures Covered(kept + [folder], path)
  {
    hide Inside, Covered, Antichain;
    var next := kept + [folder];
    var j := Covering(roots, path);
    InsideItself(roots[j]);
    if Inside(roots[j], folder) {
      CoveredBy(next, |kept|, path, roots[j]) by { assert next[|kept|] == folder; }
    } else {
      assert roots[j] in kept;
      var i :| 0 <= i < |kept| && kept[i] == roots[j];
      CoveredBy(next, i, path, roots[j]) by { assert next[i] == roots[j]; }
    }
  }

  lemma Covering(roots: seq<Path>, path: Path) returns (k: nat)
    requires Covered(roots, path)
    ensures k < |roots| && Inside(path, roots[k])
  {
    k :| k < |roots| && Inside(path, roots[k]);
  }

  lemma InsideItself(path: Path)
    ensures Inside(path, path)
  {
  }

  lemma SamePath(a: Path, b: Path)
    requires Inside(a, b) && Inside(b, a)
    ensures a == b
  {
  }

  /** The roots are exactly the outermost of the clipped folders. */
  lemma OutermostExactly(working: Path, grants: seq<Path>, roots: seq<Path>, root: Path)
    requires RootsOf(working, grants, roots)
    ensures root in roots <==>
            && Clips(working, grants, root)
            && forall other | Clips(working, grants, other) && Inside(root, other) :: other == root
  {
    hide Clips, Inside, Covered;
    if root in roots {
      var i :| 0 <= i < |roots| && roots[i] == root;
      forall other | Clips(working, grants, other) && Inside(root, other) ensures other == root {
        var j := Covering(roots, other);
        Inward(root, other, roots[j]);
        assert Overlaps(roots[i], roots[j]) && Overlaps(roots[j], roots[i]);
        SamePath(root, other);
      }
    } else if Clips(working, grants, root) {
      var j := Covering(roots, root);
      assert Clips(working, grants, roots[j]);
    }
  }

  lemma Inward(path: Path, folder: Path, outer: Path)
    requires Inside(path, folder) && Inside(folder, outer)
    ensures Inside(path, outer)
  {
  }

  /** A path in the working folder is captured exactly when a grant covers it. */
  lemma CapturesWhatIsGranted(working: Path, grants: seq<Path>, roots: seq<Path>, path: Path)
    requires RootsOf(working, grants, roots) && Inside(path, working)
    ensures Covered(roots, path) <==> Covered(grants, path)
  {
    hide Inside, Covered, Antichain, Clips, Clipped;
    if Covered(grants, path) {
      var k := Covering(grants, path);
      var folder := ClipHolds(working, grants[k], path);
      ClipsAt(working, grants, k, folder);
      var j := Covering(roots, folder);
      CoveredBy(roots, j, path, folder);
    }
    if Covered(roots, path) {
      var j := Covering(roots, path);
      assert Clips(working, grants, roots[j]);
      var k := Clipping(working, grants, roots[j]);
      ClipShrinks(working, grants[k], roots[j]);
      CoveredBy(grants, k, path, roots[j]);
    }
  }

  lemma ClipsAt(working: Path, grants: seq<Path>, k: nat, root: Path)
    requires k < |grants| && Clipped(working, grants[k]) == Some(root)
    ensures Clips(working, grants, root)
  {
  }

  lemma Clipping(working: Path, grants: seq<Path>, root: Path) returns (k: nat)
    requires Clips(working, grants, root)
    ensures k < |grants| && Clipped(working, grants[k]) == Some(root)
  {
    k :| k < |grants| && Clipped(working, grants[k]) == Some(root);
  }

  lemma ClipHolds(working: Path, grant: Path, path: Path) returns (folder: Path)
    requires Inside(path, working) && Inside(path, grant)
    ensures Clipped(working, grant) == Some(folder) && Inside(path, folder)
  {
    assert Inside(working, grant) || Inside(grant, working);
    folder := if Inside(working, grant) then working else grant;
  }

  lemma ClipShrinks(working: Path, grant: Path, root: Path)
    requires Clipped(working, grant) == Some(root)
    ensures Inside(root, grant)
  {
  }

  /** A call whose grants overlap nothing held gets all its roots in the first
      pass. */
  lemma RootsAtOnce(working: Path, grants: seq<Path>, roots: seq<Path>, held: seq<Path>)
    requires RootsOf(working, grants, roots)
    requires forall k | 0 <= k < |roots| :: !OverlapsAny(held, roots[k])
    ensures Passed(held, roots) == (roots, [])
  {
    hide Antichain, OverlapsAny, Clips, Covered;
    FreeRootsAtOnce(held, roots);
  }
}
