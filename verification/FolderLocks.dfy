/** Folders that calls take turns in. */
module FolderLocks {
  import opened Base

  /** `path` is the folder or lies in it. */
  predicate Inside(path: Path, folder: Path) {
    folder <= path
  }

  predicate Overlaps(a: Path, b: Path) {
    Inside(a, b) || Inside(b, a)
  }

  /** Two folders overlap exactly when some path lies in both. */
  lemma OverlapExactly(a: Path, b: Path)
    ensures Overlaps(a, b) <==> exists path: Path ::
              |a| <= |path| && path[..|a|] == a && |b| <= |path| && path[..|b|] == b
    ensures Inside(a, b) <==> |b| <= |a| && a[..|b|] == b
  {
    if |a| <= |b| {
      forall path: Path | |a| <= |path| && path[..|a|] == a && |b| <= |path| && path[..|b|] == b
        ensures a <= b
      {
        assert path[..|b|][..|a|] == path[..|a|];
      }
      assert b[..|b|] == b;
      assert a <= b ==> b[..|a|] == a;
    } else {
      forall path: Path | |a| <= |path| && path[..|a|] == a && |b| <= |path| && path[..|b|] == b
        ensures b <= a
      {
        assert path[..|a|][..|b|] == path[..|b|];
      }
      assert a[..|a|] == a;
      assert b <= a ==> a[..|b|] == b;
    }
  }

  predicate OverlapsAny(held: seq<Path>, root: Path) {
    exists k | 0 <= k < |held| :: Overlaps(held[k], root)
  }

  /** No two folders overlap, and none is there twice. */
  ghost predicate Apart(m: multiset<Path>) {
    && (forall a | a in m :: m[a] == 1)
    && forall a, b | a in m && b in m && a != b :: !Overlaps(a, b)
  }

  predicate Antichain(roots: seq<Path>) {
    forall i, j | 0 <= i < j < |roots| :: !Overlaps(roots[i], roots[j])
  }

  // ---------- what an acquisition pass takes ----------

  /** The roots a pass takes of those pending, in order, and those it leaves. */
  function Passed(held: seq<Path>, pending: seq<Path>): (r: (seq<Path>, seq<Path>))
    decreases |pending|
  {
    if pending == [] then ([], [])
    else
      var (took, left) := Passed(held, pending[..|pending| - 1]);
      var root := pending[|pending| - 1];
      if OverlapsAny(held + took, root) then (took, left + [root]) else (took + [root], left)
  }

  /** Without the element at `i`, the last put in its place. */
  function SwapRemoved(s: seq<Path>, i: nat): (r: seq<Path>)
    requires i < |s|
    ensures multiset(r) == multiset(s) - multiset{s[i]}
  {
    var last := |s| - 1;
    assert s == s[..last] + [s[last]];
    if i == last then s[..last]
    else
      assert s[..last] == s[..i] + [s[i]] + s[i + 1..last];
      s[..i] + [s[last]] + s[i + 1..last]
  }

  function FirstIndex(s: seq<Path>, root: Path): (i: Option<nat>)
    ensures i.Some? ==> i.value < |s| && s[i.value] == root
    ensures i.None? <==> root !in s
  {
    if s == [] then None
    else if s[0] == root then Some(0)
    else
      var i := FirstIndex(s[1..], root);
      if i.Some? then Some(i.value + 1) else None
  }

  function Released(held: seq<Path>, roots: seq<Path>): seq<Path>
    decreases |roots|
  {
    if roots == [] then held
    else
      var rest := Released(held, roots[..|roots| - 1]);
      var at := FirstIndex(rest, roots[|roots| - 1]);
      if at.Some? then SwapRemoved(rest, at.value) else rest
  }

  /** The folders held, shared by every call. */
  class Holder {
    var held: seq<Path>

    /** One pass of a call that waits for its folders: takes each pending root
        that overlaps nothing held by then. */
    method Pass(pending: seq<Path>) returns (took: seq<Path>, left: seq<Path>)
      modifies this
      ensures (took, left) == Passed(old(held), pending)
      ensures held == old(held) + took
    {
      took, left := [], [];
      var k: nat := 0;
      while k < |pending|
        invariant k <= |pending|
        invariant (took, left) == Passed(old(held), pending[..k])
        invariant held == old(held) + took
      {
        assert pending[..k + 1][..k] == pending[..k];
        if OverlapsAny(held, pending[k]) {
          left := left + [pending[k]];
        } else {
          held, took := held + [pending[k]], took + [pending[k]];
        }
        k := k + 1;
      }
      assert pending[..k] == pending;
    }

    /** Gives up the roots of a call's lock. */
    method Drop(roots: seq<Path>)
      modifies this
      ensures held == Released(old(held), roots)
    {
      var k: nat := 0;
      assert roots[..0] == [];
      while k < |roots|
        invariant k <= |roots|
        invariant held == Released(old(held), roots[..k])
      {
        assert roots[..k + 1][..k] == roots[..k];
        var at := FirstIndex(held, roots[k]);
        if at.Some? {
          held := SwapRemoved(held, at.value);
        }
        k := k + 1;
      }
      assert roots[..k] == roots;
    }
  }

  // ---------- what passes and drops keep ----------

  lemma InMultiset(s: seq<Path>, a: Path)
    ensures a in multiset(s) <==> a in s
  {
  }

  lemma ApartAdd(m: multiset<Path>, held: seq<Path>, root: Path)
    requires m == multiset(held) && Apart(m) && !OverlapsAny(held, root)
    ensures Apart(m + multiset{root})
  {
    forall a | a in m ensures !Overlaps(a, root) {
      InMultiset(held, a);
      var k :| 0 <= k < |held| && held[k] == a;
    }
  }

  /** A pass only adds folders that are apart from those held and each other, loses none
      of the pending, and leaves only those that overlap what is then held. */
  lemma {:induction false} PassKeepsApart(held: seq<Path>, pending: seq<Path>)
    requires Apart(multiset(held))
    ensures var (took, left) := Passed(held, pending);
            && Apart(multiset(held + took))
            && multiset(took) + multiset(left) == multiset(pending)
            && forall k | 0 <= k < |left| :: OverlapsAny(held + took, left[k])
    decreases |pending|
  {
    hide Apart, OverlapsAny;
    if pending == [] {
      assert held + [] == held;
    } else {
      var rest, root := pending[..|pending| - 1], pending[|pending| - 1];
      PassKeepsApart(held, rest);
      var took := Passed(held, rest).0;
      assert pending == rest + [root];
      assert held + (took + [root]) == (held + took) + [root];
      forall r ensures OverlapsAny(held + took, r) ==> OverlapsAny(held + took + [root], r) {
        OverlapsEither(held + took, [root], r);
      }
      if !OverlapsAny(held + took, root) {
        ApartAdd(multiset(held + took), held + took, root);
      }
    }
  }

  /** `all` is the two lists merged, each in its own order. */
  predicate Merged(a: seq<Path>, b: seq<Path>, all: seq<Path>)
    decreases |all|
  {
    if all == [] then a == [] && b == []
    else
      var last := |all| - 1;
      || (a != [] && a[|a| - 1] == all[last] && Merged(a[..|a| - 1], b, all[..last]))
      || (b != [] && b[|b| - 1] == all[last] && Merged(a, b[..|b| - 1], all[..last]))
  }

  /** What a pass takes and what it leaves keep the order of the pending. */
  lemma {:induction false} PassKeepsOrder(held: seq<Path>, pending: seq<Path>)
    ensures Merged(Passed(held, pending).0, Passed(held, pending).1, pending)
    decreases |pending|
  {
    hide OverlapsAny;
    if pending != [] {
      var rest, root := pending[..|pending| - 1], pending[|pending| - 1];
      PassKeepsOrder(held, rest);
      var (took, left) := Passed(held, rest);
      assert (took + [root])[..|took|] == took && (left + [root])[..|left|] == left;
    }
  }

  /** What a drop gives up is exactly the lock's own folders. */
  lemma {:induction false} DropGivesUp(held: seq<Path>, roots: seq<Path>)
    requires multiset(roots) <= multiset(held)
    ensures multiset(Released(held, roots)) == multiset(held) - multiset(roots)
    decreases |roots|
  {
    if roots != [] {
      var rest, root := roots[..|roots| - 1], roots[|roots| - 1];
      assert roots == rest + [root];
      DropGivesUp(held, rest);
      assert multiset(roots) == multiset(rest) + multiset{root};
      assert root in multiset(Released(held, rest));
      InMultiset(Released(held, rest), root);
    }
  }

  lemma ApartLess(m: multiset<Path>, n: multiset<Path>)
    requires n <= m && Apart(m)
    ensures Apart(n)
  {
    forall a | a in n ensures n[a] == 1 {
      assert a in m;
    }
    forall a, b | a in n && b in n && a != b ensures !Overlaps(a, b) {
      assert a in m && b in m;
    }
  }

  /** The roots a pass leaves are exactly those that overlap a folder another
      call holds, when the call's own roots do not overlap. */
  lemma {:induction false} PassTakesExactly(held: seq<Path>, pending: seq<Path>)
    requires Antichain(pending)
    ensures var (took, left) := Passed(held, pending);
            && (forall root :: root in took <==> root in pending && !OverlapsAny(held, root))
            && (forall root :: root in left <==> root in pending && OverlapsAny(held, root))
    decreases |pending|
  {
    if pending != [] {
      var rest, root := pending[..|pending| - 1], pending[|pending| - 1];
      assert forall k | 0 <= k < |rest| :: rest[k] == pending[k];
      assert forall r :: r in pending <==> r in rest || r == root by { assert pending == rest + [root]; }
      PassTakesExactly(held, rest);
      var took := Passed(held, rest).0;
      forall k | 0 <= k < |took| ensures !Overlaps(took[k], root) {
        assert took[k] in took && took[k] in rest;
        var i :| 0 <= i < |rest| && rest[i] == took[k];
        assert !Overlaps(pending[i], pending[|pending| - 1]);
      }
      OverlapsEither(held, took, root);
    }
  }

  lemma OverlapsEither(a: seq<Path>, b: seq<Path>, root: Path)
    ensures OverlapsAny(a + b, root) <==> OverlapsAny(a, root) || OverlapsAny(b, root)
  {
    hide Overlaps;
    var all := a + b;
    assert forall k | 0 <= k < |a| :: all[k] == a[k];
    assert forall k | 0 <= k < |b| :: all[|a| + k] == b[k];
    if OverlapsAny(b, root) {
      var k :| 0 <= k < |b| && Overlaps(b[k], root);
      assert Overlaps(all[|a| + k], root);
    }
  }

  /** A call whose roots do not overlap each other or anything held gets all of
      them in its first pass. */
  lemma FreeRootsAtOnce(held: seq<Path>, roots: seq<Path>)
    requires Antichain(roots) && forall k | 0 <= k < |roots| :: !OverlapsAny(held, roots[k])
    ensures Passed(held, roots) == (roots, [])
  {
    AllTaken(held, roots, |roots|);
    assert roots[..|roots|] == roots;
  }

  lemma {:induction false} AllTaken(held: seq<Path>, roots: seq<Path>, n: nat)
    requires Antichain(roots) && n <= |roots| && forall k | 0 <= k < |roots| :: !OverlapsAny(held, roots[k])
    ensures Passed(held, roots[..n]) == (roots[..n], [])
  {
    if n > 0 {
      AllTaken(held, roots, n - 1);
      assert roots[..n][..n - 1] == roots[..n - 1];
      var all := held + roots[..n - 1];
      forall k | 0 <= k < |all| ensures !Overlaps(all[k], roots[n - 1]) {
        if k < |held| { assert !OverlapsAny(held, roots[n - 1]); assert all[k] == held[k]; }
      }
      assert roots[..n - 1] + [roots[n - 1]] == roots[..n];
    }
  }

  // ---------- every interleaving ----------

  /** A live lock: the roots it holds, and those its call still waits for. */
  datatype Lock = Lock(roots: seq<Path>, pending: seq<Path>)

  datatype State = State(held: seq<Path>, locks: seq<Lock>)

  /** A call asks for folders, makes a pass over those it lacks, or lets go (it is
      done, or stopped while it waits). */
  datatype Event = Ask(roots: seq<Path>) | Try(lock: nat) | Let(lock: nat)

  function Step(s: State, e: Event): State {
    match e
    case Ask(roots) => s.(locks := s.locks + [Lock([], roots)])
    case Try(i) =>
      if i >= |s.locks| then s
      else
        var (took, left) := Passed(s.held, s.locks[i].pending);
        State(s.held + took, s.locks[i := Lock(s.locks[i].roots + took, left)])
    case Let(i) =>
      if i >= |s.locks| then s
      else State(Released(s.held, s.locks[i].roots), s.locks[..i] + s.locks[i + 1..])
  }

  function Runs(s: State, events: seq<Event>): State
    decreases |events|
  {
    if events == [] then s else Runs(Step(s, events[0]), events[1..])
  }

  /** All the roots that live locks hold. */
  function Union(locks: seq<Lock>): multiset<Path> {
    if locks == [] then multiset{} else multiset(locks[0].roots) + Union(locks[1..])
  }

  /** What is held is exactly what live locks hold, and no two of them overlap. */
  ghost predicate Sound(s: State) {
    multiset(s.held) == Union(s.locks) && Apart(multiset(s.held))
  }

  lemma {:induction false} UnionAdd(a: seq<Lock>, b: seq<Lock>)
    ensures Union(a + b) == Union(a) + Union(b)
  {
    UnionFirst(a);
    UnionFirst(a + b);
    hide Union;
    if a == [] {
      assert a + b == b;
    } else {
      UnionAdd(a[1..], b);
      assert (a + b)[0] == a[0];
      assert (a + b)[1..] == a[1..] + b;
      Associates(multiset(a[0].roots), Union(a[1..]), Union(b));
    }
  }

  lemma UnionFirst(locks: seq<Lock>)
    ensures Union(locks) == if locks == [] then multiset{} else multiset(locks[0].roots) + Union(locks[1..])
  {
  }

  lemma Rearranges(x: multiset<Path>, y: multiset<Path>, z: multiset<Path>)
    ensures x + (y + z) == (x + z) + y
  {
  }

  lemma Associates(x: multiset<Path>, y: multiset<Path>, z: multiset<Path>)
    ensures x + (y + z) == (x + y) + z
  {
  }

  lemma UnionAt(locks: seq<Lock>, i: nat)
    requires i < |locks|
    ensures Union(locks) == Union(locks[..i] + locks[i + 1..]) + multiset(locks[i].roots)
  {
    hide Union;
    var a, b := locks[..i], locks[i + 1..];
    var later := [locks[i]] + b;
    assert locks == a + later;
    UnionAdd(a, later);
    UnionAdd(a, b);
    UnionFirst(later);
    assert later[0] == locks[i] && later[1..] == b;
    Rearranges(Union(a), multiset(locks[i].roots), Union(b));
  }

  lemma TrySound(s: State, i: nat)
    requires Sound(s) && i < |s.locks|
    ensures Sound(Step(s, Try(i)))
  {
    hide Apart, Passed, Union, OverlapsAny;
    var (took, left) := Passed(s.held, s.locks[i].pending);
    PassKeepsApart(s.held, s.locks[i].pending);
    var next := s.locks[i := Lock(s.locks[i].roots + took, left)];
    UnionAt(s.locks, i);
    UnionAt(next, i);
    assert next[..i] == s.locks[..i] && next[i + 1..] == s.locks[i + 1..];
  }

  lemma LetSound(s: State, i: nat)
    requires Sound(s) && i < |s.locks|
    ensures Sound(Step(s, Let(i)))
  {
    hide Apart, Released, Union;
    UnionAt(s.locks, i);
    DropGivesUp(s.held, s.locks[i].roots);
    ApartLess(multiset(s.held), multiset(Released(s.held, s.locks[i].roots)));
  }

  lemma StepSound(s: State, e: Event)
    requires Sound(s)
    ensures Sound(Step(s, e))
  {
    match e
    case Ask(roots) =>
      hide Apart, Union;
      var next := s.locks + [Lock([], roots)];
      UnionAt(next, |s.locks|);
      assert next[..|s.locks|] + next[|s.locks| + 1..] == s.locks;
    case Try(i) =>
      if i < |s.locks| { TrySound(s, i); }
    case Let(i) =>
      if i < |s.locks| { LetSound(s, i); }
  }

  /** In every interleaving of passes and drops, the folders held are exactly
      those of the live locks, and no two overlap. */
  lemma {:induction false} LocksExclude(s: State, events: seq<Event>)
    requires Sound(s)
    ensures Sound(Runs(s, events))
    decreases |events|
  {
    hide Step, Sound;
    if events != [] {
      StepSound(s, events[0]);
      LocksExclude(Step(s, events[0]), events[1..]);
    }
  }

  lemma NoLocksSound()
    ensures Sound(State([], []))
  {
  }

  /** Two live locks never hold folders that overlap, and one never holds two
      that do. */
  lemma HeldApart(s: State, i: nat, a: nat, j: nat, b: nat)
    requires Sound(s) && i < |s.locks| && a < |s.locks[i].roots| && j < |s.locks| && b < |s.locks[j].roots|
    requires (i, a) != (j, b)
    ensures !Overlaps(s.locks[i].roots[a], s.locks[j].roots[b])
  {
    var p, q := s.locks[i].roots[a], s.locks[j].roots[b];
    UnionAt(s.locks, i);
    if i == j {
      TwiceIn(s.locks[i].roots, a, b);
    } else {
      var others := s.locks[..i] + s.locks[i + 1..];
      var at := if j < i then j else j - 1;
      assert others[at] == s.locks[j];
      UnionAt(others, at);
    }
    assert p in multiset(s.held) && q in multiset(s.held);
    assert p == q ==> multiset(s.held)[p] >= 2;
  }

  lemma TwiceIn(roots: seq<Path>, a: nat, b: nat)
    requires a < |roots| && b < |roots| && a != b
    ensures roots[a] == roots[b] ==> multiset(roots)[roots[a]] >= 2
    ensures roots[a] in multiset(roots) && roots[b] in multiset(roots)
  {
    var i, j := if a < b then a else b, if a < b then b else a;
    assert roots[..j][i] in multiset(roots[..j]);
    assert roots[j..][0] in multiset(roots[j..]);
    assert roots == roots[..j] + roots[j..];
  }
}
