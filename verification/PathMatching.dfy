/** On Unix, string matching of file permissions is containment of paths. */
module PathMatching {
  import opened Base
  import opened Permissions

  /** A name between slashes. */
  predicate Component(c: string) {
    c != "" && '/' !in c
  }

  predicate Components(cs: seq<string>) {
    forall k | 0 <= k < |cs| :: Component(cs[k])
  }

  /** No component is, or has between backslashes, a `.` or `..`. */
  predicate Normal(cs: seq<string>) {
    forall k | 0 <= k < |cs| :: NormalPath(cs[k])
  }

  function Joined(cs: seq<string>): string {
    if cs == [] then "" else "/" + cs[0] + Joined(cs[1..])
  }

  /** The text of an absolute path. */
  function PathOf(cs: seq<string>): string {
    if cs == [] then "/" else Joined(cs)
  }

  function Slashes(n: nat): string {
    if n == 0 then "" else Slashes(n - 1) + "/"
  }

  // ---------- normal paths ----------

  lemma {:induction false} PiecesAround(a: string, c: char, b: string, stops: set<char>)
    requires c in stops
    ensures Pieces(a + [c] + b, stops) == Pieces(a, stops) + Pieces(b, stops)
    decreases |a|
  {
    hide FirstOf;
    var text := a + [c] + b;
    FirstOfJoin(a, c, b, stops);
    match FirstOf(a, stops)
    case None =>
      assert text[..|a|] == a && text[|a| + 1..] == b;
    case Some(i) =>
      var rest := a[i + 1..];
      assert text[..i] == a[..i] && text[i + 1..] == rest + [c] + b;
      PiecesAround(rest, c, b, stops);
      PiecesAt(text, stops);
      PiecesAt(a, stops);
      hide Pieces;
      Regroup([a[..i]], Pieces(rest, stops), Pieces(b, stops));
  }

  lemma PiecesAt(text: string, stops: set<char>)
    ensures var i := FirstOf(text, stops);
            Pieces(text, stops) == if i.None? then [text] else [text[..i.value]] + Pieces(text[i.value + 1..], stops)
  {
    hide FirstOf;
  }

  lemma FirstOfJoin(a: string, c: char, b: string, stops: set<char>)
    requires c in stops
    ensures FirstOf(a + [c] + b, stops) == if FirstOf(a, stops).Some? then FirstOf(a, stops) else Some(|a|)
  {
    var text := a + [c] + b;
    var i := FirstOf(text, stops);
    assert text[|a|] in stops;
    assert forall k | 0 <= k < |a| :: text[k] == a[k];
  }

  predicate NoDots(pieces: seq<string>) {
    forall k | 0 <= k < |pieces| :: pieces[k] != "." && pieces[k] != ".."
  }

  lemma NoDotsAdd(a: seq<string>, b: seq<string>)
    ensures NoDots(a + b) <==> NoDots(a) && NoDots(b)
  {
    if NoDots(a + b) {
      assert forall k | 0 <= k < |a| :: (a + b)[k] == a[k];
      assert forall k | 0 <= k < |b| :: (a + b)[|a| + k] == b[k];
    }
  }

  lemma NormalAround(a: string, b: string)
    ensures NormalPath(a + "/" + b) <==> NormalPath(a) && NormalPath(b)
  {
    hide Pieces;
    var seps := {'/', '\\'};
    assert a + ['/'] + b == a + "/" + b;
    PiecesAround(a, '/', b, seps);
    NoDotsAdd(Pieces(a, seps), Pieces(b, seps));
  }

  lemma {:induction false} JoinedIsNormal(c: string, cs: seq<string>)
    ensures NormalPath(c + Joined(cs)) <==> NormalPath(c) && Normal(cs)
    decreases |cs|
  {
    hide NormalPath;
    if cs == [] {
      assert c + Joined(cs) == c;
    } else {
      var more := cs[0] + Joined(cs[1..]);
      assert c + Joined(cs) == c + "/" + more;
      NormalAround(c, more);
      JoinedIsNormal(cs[0], cs[1..]);
      assert Normal(cs) <==> NormalPath(cs[0]) && Normal(cs[1..]);
    }
  }

  lemma PathIsNormal(cs: seq<string>)
    ensures NormalPath(PathOf(cs)) <==> Normal(cs)
  {
    JoinedIsNormal("", cs);
    assert "" + Joined(cs) == Joined(cs);
    if cs == [] {
      assert "" + "/" + "" == "/";
      NormalAround("", "");
    }
  }

  // ---------- prefixes ----------

  /** `text` is `prefix`, or goes on from it with a slash. */
  predicate Within(prefix: string, text: string) {
    text == prefix || (prefix <= text && "/" <= text[|prefix|..])
  }

  /** A folder's text starts a path's text at a slash exactly when its
      components start the path's. */
  lemma {:induction false} WithinIsPrefix(f: seq<string>, r: seq<string>)
    requires Components(f) && Components(r)
    ensures Within(Joined(f), Joined(r)) <==> f <= r
  {
    if f != [] && r != [] {
      var a, b := Joined(f), Joined(r);
      var a', b' := Joined(f[1..]), Joined(r[1..]);
      WithinIsPrefix(f[1..], r[1..]);
      assert a == "/" + f[0] + a' && b == "/" + r[0] + b';
      if f[0] == r[0] {
        assert a <= b <==> a' <= b' by {
          if a <= b { assert b[|f[0]| + 1..] == b' && a[|f[0]| + 1..] == a'; }
        }
        assert b[|f[0]| + 1..] == b' && a[|f[0]| + 1..] == a';
        assert a <= b ==> b[|a|..] == b'[|a'|..];
        assert f <= r <==> f[1..] <= r[1..];
      } else if Within(a, b) {
        FirstPartWithin(a, b);
        FirstPartOfJoined(f);
        FirstPartOfJoined(r);
      }
    } else if f != [] {
      assert Joined(f)[0] == '/';
    } else if r != [] {
      assert Joined(r)[..0] == "" && "/" <= Joined(r)[0..];
    }
  }

  /** What comes after the first character, up to the next slash. */
  function FirstPart(text: string): string
    requires text != ""
  {
    var i := FirstOf(text[1..], {'/'});
    if i.Some? then text[1..][..i.value] else text[1..]
  }

  lemma FirstPartOfJoined(cs: seq<string>)
    requires cs != [] && Components(cs)
    ensures Joined(cs) != "" && FirstPart(Joined(cs)) == cs[0]
  {
    hide FirstOf, Joined, Components;
    var rest := Joined(cs[1..]);
    assert Component(cs[0]) by { FirstComponent(cs); }
    JoinedHead(cs);
    assert Joined(cs)[1..] == cs[0] + rest;
    if cs[1..] == [] {
      assert rest == "" by { JoinedNone(); }
      assert cs[0] + rest == cs[0];
    } else {
      JoinedHead(cs[1..]);
      var more := cs[1] + Joined(cs[1..][1..]);
      assert cs[0] + rest == cs[0] + ['/'] + more;
      FirstOfJoin(cs[0], '/', more, {'/'});
      assert (cs[0] + rest)[..|cs[0]|] == cs[0];
    }
  }

  lemma FirstComponent(cs: seq<string>)
    requires cs != [] && Components(cs)
    ensures Component(cs[0])
  {
  }

  lemma JoinedNone()
    ensures Joined([]) == ""
  {
  }

  lemma JoinedHead(cs: seq<string>)
    requires cs != []
    ensures Joined(cs) == ['/'] + (cs[0] + Joined(cs[1..]))
  {
    Regroup("/", cs[0], Joined(cs[1..]));
  }

  lemma FirstPartWithin(a: string, b: string)
    requires a != "" && Within(a, b)
    ensures b != "" && FirstPart(a) == FirstPart(b)
  {
    hide FirstOf;
    if a != b {
      var more := b[|a| + 1..];
      assert b[|a|..] == ['/'] + more;
      assert b == a + (['/'] + more);
      assert b[1..] == a[1..] + ['/'] + more;
      FirstOfJoin(a[1..], '/', more, {'/'});
    }
  }

  lemma {:induction false} JoinedAdd(a: seq<string>, b: seq<string>)
    ensures Joined(a + b) == Joined(a) + Joined(b)
  {
    if a == [] {
      assert a + b == b;
    } else {
      JoinedAdd(a[1..], b);
      assert (a + b)[1..] == a[1..] + b;
    }
  }

  lemma JoinedOne(c: string)
    ensures Joined([c]) == "/" + c
  {
    assert [c][1..] == [];
  }

  lemma LastOfPath(cs: seq<string>)
    requires cs != [] && Components(cs)
    ensures |Joined(cs)| >= 2
    ensures var c := cs[|cs| - 1]; Joined(cs)[|Joined(cs)| - 1] == c[|c| - 1]
  {
    var n := |cs| - 1;
    assert cs == cs[..n] + [cs[n]];
    JoinedAdd(cs[..n], [cs[n]]);
    JoinedOne(cs[n]);
    assert Component(cs[n]);
  }

  // ---------- permissions for paths ----------

  /** A file permission on Unix, where letter case matters. */
  predicate Unix(domain: string, on: Platform) {
    "fs." <= domain && ':' !in domain && !on.ignoreCase
  }

  function For(domain: string, spec: string): Permission {
    Permission(domain + ":" + spec)
  }

  lemma ForParts(domain: string, spec: string)
    requires ':' !in domain
    ensures For(domain, spec).Parts() == (domain, Some(spec))
  {
    var slug := domain + ":" + spec;
    var i := FirstOf(slug, {':'});
    assert slug[|domain|] == ':';
    assert forall k | 0 <= k < |domain| :: slug[k] == domain[k];
    assert i == Some(|domain|);
    assert slug[..|domain|] == domain && slug[|domain| + 1..] == spec;
  }

  lemma CoversPath(domain: string, spec: string, r: seq<string>, on: Platform)
    requires Unix(domain, on)
    ensures For(domain, spec).Covers(For(domain, PathOf(r)), on) <==> Normal(r) && MatchSpec(spec, PathOf(r))
  {
    ForParts(domain, spec);
    ForParts(domain, PathOf(r));
    PathIsNormal(r);
  }

  lemma Rooted(spec: string, r: seq<string>)
    requires spec != "" && spec[0] == '/'
    ensures !WindowsPath(spec) && !WindowsPath(PathOf(r))
  {
  }

  /** `within` of a root folder is everything. */
  lemma WithinPath(f: seq<string>, r: seq<string>)
    requires Components(f) && Components(r)
    ensures Within(Joined(f), PathOf(r)) <==> f <= r
  {
    WithinIsPrefix(f, r);
    if r == [] && f != [] {
      LastOfPath(f);
    }
  }

  lemma TreeSpec(prefix: string, text: string)
    requires prefix == "" || prefix[0] == '/'
    requires text != "" && text[0] == '/'
    ensures MatchSpec(prefix + "/**", text) <==> Within(prefix, text)
  {
    var spec := prefix + "/**";
    assert Ends(spec, "/**") && Front(spec, 3) == prefix;
    assert spec[0] == '/';
    assert spec == text ==> Within(prefix, text);
  }

  /** `text` goes on from `prefix` with a slash and a name. */
  predicate NamedBelow(prefix: string, text: string) {
    prefix <= text && "/" <= text[|prefix|..] && '/' !in text[|prefix| + 1..]
  }

  lemma LevelSpec(prefix: string, text: string)
    requires prefix == "" || prefix[0] == '/'
    requires text != "" && text[0] == '/'
    ensures MatchSpec(prefix + "/*", text) <==> NamedBelow(prefix, text)
  {
    var spec := prefix + "/*";
    assert Ends(spec, "/*") && Front(spec, 2) == prefix;
    assert spec[0] == '/';
    assert !WindowsPath(spec) && !WindowsPath(text);
    OneStar(prefix);
    hide WindowsPath, NamedBelow;
    assert NamedBelow(prefix, text) <==> prefix <= text && "/" <= text[|prefix|..] && '/' !in text[|prefix| + 1..] by {
      NamedBelowIs(prefix, text);
    }
  }

  lemma NamedBelowIs(prefix: string, text: string)
    ensures NamedBelow(prefix, text) <==> prefix <= text && "/" <= text[|prefix|..] && '/' !in text[|prefix| + 1..]
  {
  }

  lemma OneStar(prefix: string)
    ensures !Ends(prefix + "/*", "/**")
    ensures NamedBelow(prefix, prefix + "/*")
  {
    var spec := prefix + "/*";
    assert spec[|spec| - 2] == '/';
    assert spec[|prefix|..] == "/*" && spec[|prefix| + 1..] == "*";
    if |spec| >= 3 {
      assert spec[|spec| - 3..][1] != "/**"[1];
    }
  }

  lemma PathsRooted(cs: seq<string>)
    ensures PathOf(cs) != "" && PathOf(cs)[0] == '/'
    ensures Joined(cs) == "" || Joined(cs)[0] == '/'
  {
  }

  /** A grant that ends in a slash and two stars covers the folder and everything
      inside it. */
  lemma TreeGrant(domain: string, f: seq<string>, r: seq<string>, on: Platform)
    requires Unix(domain, on) && Components(f) && Components(r)
    ensures For(domain, Joined(f) + "/**").Covers(For(domain, PathOf(r)), on) <==> Normal(r) && f <= r
  {
    hide Joined, PathOf, MatchSpec, Permission.Covers, Within;
    CoversPath(domain, Joined(f) + "/**", r, on);
    PathsRooted(f);
    PathsRooted(r);
    TreeSpec(Joined(f), PathOf(r));
    WithinPath(f, r);
  }

  /** A grant that ends in a slash and one star covers exactly one level below the
      folder; at the root it covers the root too. */
  lemma LevelGrant(domain: string, f: seq<string>, r: seq<string>, on: Platform)
    requires Unix(domain, on) && Components(f) && Components(r)
    ensures For(domain, Joined(f) + "/*").Covers(For(domain, PathOf(r)), on) <==>
            Normal(r) && ((f <= r && |r| == |f| + 1) || (f == [] && r == []))
  {
    hide Joined, PathOf, MatchSpec, Permission.Covers;
    CoversPath(domain, Joined(f) + "/*", r, on);
    PathsRooted(f);
    PathsRooted(r);
    LevelSpec(Joined(f), PathOf(r));
    WithinPath(f, r);
    assert NamedBelow(Joined(f), PathOf(r)) ==> Within(Joined(f), PathOf(r));
    if f <= r {
      TailOf(f, r);
    }
  }

  /** What follows a folder's slash has another slash exactly when the path goes
      down more than one level. */
  lemma TailOf(f: seq<string>, r: seq<string>)
    requires Components(f) && Components(r) && f <= r
    ensures f == r && f != [] ==> PathOf(r) == Joined(f)
    ensures f == r && f == [] ==> PathOf(r) == "/" && Joined(f) == ""
    ensures f != r ==>
      && Joined(f) + "/" <= PathOf(r)
      && ('/' !in PathOf(r)[|Joined(f)| + 1..] <==> |r| == |f| + 1)
  {
    if f == r {
      return;
    }
    var c, rest := r[|f|], r[|f| + 1..];
    assert Component(c);
    assert r == f + ([c] + rest);
    TailText(f, c, rest);
    LaterSlash(c, rest);
    hide Joined, PathOf, Components;
    assert rest == [] <==> |r| == |f| + 1;
  }

  lemma TailText(f: seq<string>, c: string, rest: seq<string>)
    ensures var text := PathOf(f + ([c] + rest));
            Joined(f) + "/" <= text && text[|Joined(f)| + 1..] == c + Joined(rest)
  {
    hide Joined;
    JoinedAdd(f, [c] + rest);
    JoinedAdd([c], rest);
    JoinedOne(c);
    Regroup("/", c, Joined(rest));
    Regroup(Joined(f), "/", c + Joined(rest));
    assert f + ([c] + rest) != [];
  }

  lemma LaterSlash(c: string, rest: seq<string>)
    requires '/' !in c
    ensures '/' in c + Joined(rest) <==> rest != []
  {
    if rest != [] {
      assert (c + Joined(rest))[|c|] == '/';
    }
  }

  // ---------- denials ----------

  lemma MatchesOnlyItself(spec: string, r: seq<string>)
    requires spec != "" && spec[0] == '/' && !Ends(spec, "*")
    ensures MatchSpec(spec, PathOf(r)) <==> spec == PathOf(r)
  {
    Rooted(spec, r);
    StarAtEnd(spec);
  }

  lemma StarAtEnd(spec: string)
    ensures Ends(spec, "/**") || Ends(spec, "/*") ==> Ends(spec, "*")
  {
    if Ends(spec, "/**") || Ends(spec, "/*") {
      assert spec[|spec| - 1] == '*';
    }
  }

  /** A denied folder denies what its text names and everything inside the
      folder that is left once separators at its end are taken off. */
  lemma DeniesInside(domain: string, spec: string, f: seq<string>, r: seq<string>, on: Platform)
    requires Unix(domain, on) && Components(f) && Components(r)
    requires spec != "" && spec[0] == '/' && !Ends(spec, "*") && TrimSeparators(spec) == Joined(f)
    ensures Denies(For(domain, spec), For(domain, PathOf(r)), on) <==> Normal(r) && (spec == PathOf(r) || f <= r)
  {
    hide PathOf, Joined, MatchSpec, TrimSeparators;
    ForParts(domain, spec);
    CoversPath(domain, spec, r, on);
    MatchesOnlyItself(spec, r);
    TreeGrant(domain, f, r, on);
    var inside := Joined(f) + "/**";
    ForParts(domain, inside);
    assert domain != "net" by { assert FileDomain(domain); assert domain[0] == 'f'; }
    assert domain + ":" + Joined(f) + "/**" == domain + ":" + inside;
    assert Made(domain + ":" + inside, on) == For(domain, inside);
  }
}
