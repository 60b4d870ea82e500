/** What a denied folder denies on Unix. */
module DeniedFolders {
  import opened Base
  import opened Permissions
  import opened PathMatching

  predicate Separator(c: char) {
    c == '/' || c == '\\'
  }

  // ---------- what is left once separators are taken off ----------

  lemma {:induction false} TrimAfter(a: string, b: string)
    ensures TrimSeparators(a + b) == if TrimSeparators(b) == "" then TrimSeparators(a) else a + TrimSeparators(b)
    decreases |b|
  {
    if b == "" {
      assert a + b == a;
    } else if Separator(b[|b| - 1]) {
      TrimAfter(a, Front(b, 1));
      assert Front(a + b, 1) == a + Front(b, 1);
    }
  }

  lemma {:induction false} TrimEnds(text: string)
    ensures TrimSeparators(text) <= text
    ensures TrimSeparators(text) == "" || !Separator(TrimSeparators(text)[|TrimSeparators(text)| - 1])
    ensures TrimSeparators(text) == text <==> text == "" || !Separator(text[|text| - 1])
    decreases |text|
  {
    if text != "" && Separator(text[|text| - 1]) {
      TrimEnds(Front(text, 1));
    }
  }

  lemma {:induction false} SlashesTrimmed(n: nat)
    ensures TrimSeparators(Slashes(n)) == ""
  {
    if n > 0 {
      SlashesTrimmed(n - 1);
      assert Front(Slashes(n), 1) == Slashes(n - 1);
    }
  }

  function Last(f: seq<string>): string
    requires f != []
  {
    f[|f| - 1]
  }

  /** The folder left when separators are taken off the end of its text: names lose
      backslashes at their end, and go if nothing else is in them. */
  function Bare(f: seq<string>): seq<string> {
    if f == [] then []
    else
      var folder, name := f[..|f| - 1], TrimSeparators(Last(f));
      if name == "" then Bare(folder) else folder + [name]
  }

  lemma {:induction false} TrimIsBare(f: seq<string>)
    requires Components(f)
    ensures Components(Bare(f))
    ensures TrimSeparators(Joined(f)) == Joined(Bare(f))
  {
    hide TrimSeparators, Joined;
    if f == [] {
      assert Joined([]) == "" && TrimSeparators("") == "" by { NothingTrimmed(); }
    } else {
      var folder, name := f[..|f| - 1], TrimSeparators(Last(f));
      TrimIsBare(folder);
      JoinedLast(f);
      TrimAfter("/", Last(f));
      TrimAfter(Joined(folder), "/" + Last(f));
      assert TrimSeparators("/") == "" by { SlashTrimmed(); }
      if name != "" {
        TrimEnds(Last(f));
        assert Component(name) by { assert Component(f[|f| - 1]); }
        JoinedLast(folder + [name]);
        assert (folder + [name])[..|folder|] == folder;
      }
    }
  }

  lemma NothingTrimmed()
    ensures Joined([]) == "" && TrimSeparators("") == ""
  {
  }

  lemma SlashTrimmed()
    ensures TrimSeparators("/") == ""
  {
    assert Front("/", 1) == "";
  }

  lemma JoinedLast(f: seq<string>)
    requires f != []
    ensures Joined(f) == Joined(f[..|f| - 1]) + ("/" + Last(f))
  {
    assert f == f[..|f| - 1] + [Last(f)];
    JoinedAdd(f[..|f| - 1], [Last(f)]);
    JoinedOne(Last(f));
  }

  /** Taking separators off changes the folder exactly when its last name ends in a
      backslash. */
  lemma BareIsSelf(f: seq<string>)
    requires Components(f)
    ensures Bare(f) == f <==> f == [] || !Ends(Last(f), "\\")
    ensures Bare(f) == f || !(f <= Bare(f))
  {
    TrimIsBare(f);
    TrimEnds(Joined(f));
    if f != [] {
      LastOfPath(f);
      var c := Last(f);
      assert Component(f[|f| - 1]);
      assert c[|c| - 1..] == [c[|c| - 1]];
      assert c[|c| - 1] != '/';
      TrimEnds(c);
      BareIsShort(f);
    }
  }

  lemma {:induction false} BareIsShort(f: seq<string>)
    requires Components(f)
    ensures |Bare(f)| <= |f|
    ensures f != [] && TrimSeparators(Last(f)) == Last(f) ==> Bare(f) == f
    ensures f != [] && TrimSeparators(Last(f)) != Last(f) ==> Bare(f) != f && !(f <= Bare(f))
  {
    if f != [] {
      var folder, name := f[..|f| - 1], TrimSeparators(Last(f));
      BareIsShort(folder);
      assert Component(f[|f| - 1]);
      assert f == folder + [Last(f)];
      if name != "" {
        assert Bare(f)[|f| - 1] == name;
      }
    }
  }

  /** The folder left has no `.` or `..` when the folder has none. */
  lemma BareIsNormal(f: seq<string>)
    requires Components(f) && Normal(f)
    ensures Normal(Bare(f))
  {
    hide Joined, NormalPath, TrimSeparators, Bare;
    TrimIsBare(f);
    TrimEnds(Joined(f));
    JoinedIsNormal("", f);
    JoinedIsNormal("", Bare(f));
    assert "" + Joined(f) == Joined(f) && "" + Joined(Bare(f)) == Joined(Bare(f));
    assert NormalPath("") by { EmptyIsNormal(); }
    NormalTrimmed(Joined(f));
  }

  lemma EmptyIsNormal()
    ensures NormalPath("")
  {
    assert Pieces("", {'/', '\\'}) == [""];
  }

  lemma {:induction false} NormalTrimmed(text: string)
    requires NormalPath(text)
    ensures NormalPath(TrimSeparators(text))
    decreases |text|
  {
    hide NormalPath;
    if text != "" && Separator(text[|text| - 1]) {
      var front, c := Front(text, 1), text[|text| - 1];
      assert text == front + [c] + "";
      NormalBefore(front, c, "");
      NormalTrimmed(front);
    }
  }

  lemma NormalBefore(a: string, c: char, b: string)
    requires Separator(c) && NormalPath(a + [c] + b)
    ensures NormalPath(a)
  {
    hide Pieces;
    var seps := {'/', '\\'};
    PiecesAround(a, c, b, seps);
    NoDotsAdd(Pieces(a, seps), Pieces(b, seps));
  }

  // ---------- denials ----------

  /** The text of the folder, slashes at its end included. */
  function FolderText(f: seq<string>, n: nat): string {
    PathOf(f) + Slashes(n)
  }

  lemma FolderTextTrimmed(f: seq<string>, n: nat)
    requires Components(f)
    ensures var spec := FolderText(f, n);
            spec != "" && spec[0] == '/' && TrimSeparators(spec) == Joined(Bare(f))
  {
    hide TrimSeparators, Joined;
    PathsRooted(f);
    SlashesTrimmed(n);
    TrimAfter(PathOf(f), Slashes(n));
    TrimIsBare(f);
    SlashTrimmed();
    NothingTrimmed();
  }

  /** The text names the folder and no other path. */
  lemma NamesItself(f: seq<string>, n: nat, r: seq<string>)
    requires Components(f) && Components(r)
    ensures FolderText(f, n) == PathOf(r) <==> n == 0 && f == r
  {
    hide Joined;
    var spec := FolderText(f, n);
    if n == 0 {
      assert spec == PathOf(f);
      if spec == PathOf(r) {
        SameText(f, r);
      }
    } else {
      PathsRooted(f);
      assert |spec| >= 2 && spec[|spec| - 1] == '/';
      if r != [] {
        LastOfPath(r);
        assert Component(r[|r| - 1]);
        var c := r[|r| - 1];
        assert c[|c| - 1] in c;
      }
    }
  }

  lemma SameText(f: seq<string>, r: seq<string>)
    requires Components(f) && Components(r) && PathOf(f) == PathOf(r)
    ensures f == r
  {
    hide Joined;
    if f == [] {
      if r != [] { LastOfPath(r); }
    } else if r == [] {
      LastOfPath(f);
    } else {
      WithinPath(f, r);
      WithinPath(r, f);
    }
  }

  /** Exactly what a denied folder denies, whatever its name ends in: itself, if its
      text has no slash at the end, and what is inside the folder left once
      separators are taken off. */
  lemma DeniedExactly(domain: string, f: seq<string>, n: nat, r: seq<string>, on: Platform)
    requires Unix(domain, on) && Components(f) && Components(r) && !Ends(FolderText(f, n), "*")
    ensures Denies(For(domain, FolderText(f, n)), For(domain, PathOf(r)), on) <==>
            Normal(r) && ((n == 0 && r == f) || Bare(f) <= r)
  {
    hide Denies, FolderText, Bare, PathOf;
    TrimIsBare(f);
    FolderTextTrimmed(f, n);
    NamesItself(f, n, r);
    DeniesInside(domain, FolderText(f, n), Bare(f), r, on);
  }

  /** A denied folder whose name does not end in a backslash, with or without slashes
      at its end, denies exactly the normal paths its components start. */
  lemma DeniedFolder(domain: string, f: seq<string>, n: nat, r: seq<string>, on: Platform)
    requires Unix(domain, on) && Components(f) && Components(r) && !Ends(FolderText(f, n), "*")
    requires f != [] ==> !Ends(Last(f), "\\")
    ensures Denies(For(domain, FolderText(f, n)), For(domain, PathOf(r)), on) <==> Normal(r) && f <= r
  {
    hide Denies, FolderText, Bare, PathOf;
    BareIsSelf(f);
    DeniedExactly(domain, f, n, r, on);
  }

  /** Denying a folder is denying the normal paths its components start exactly when
      its name does not end in a backslash. */
  lemma ContainmentExactly(domain: string, f: seq<string>, n: nat, on: Platform)
    requires Unix(domain, on) && Components(f) && Normal(f) && !Ends(FolderText(f, n), "*")
    ensures (forall r | Components(r) ::
               Denies(For(domain, FolderText(f, n)), For(domain, PathOf(r)), on) <==> Normal(r) && f <= r)
       <==> (f == [] || !Ends(Last(f), "\\"))
  {
    hide Denies, FolderText, Bare, PathOf, Components, Normal;
    if f == [] || !Ends(Last(f), "\\") {
      forall r | Components(r)
        ensures Denies(For(domain, FolderText(f, n)), For(domain, PathOf(r)), on) <==> Normal(r) && f <= r
      {
        DeniedFolder(domain, f, n, r, on);
      }
    } else {
      BareIsSelf(f);
      BareIsNormal(f);
      TrimIsBare(f);
      DeniedExactly(domain, f, n, Bare(f), on);
      assert Denies(For(domain, FolderText(f, n)), For(domain, PathOf(Bare(f))), on) && !(f <= Bare(f));
    }
  }
}
