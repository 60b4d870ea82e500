/** What parsing yields, and exactly when printing and parsing are inverse. */
module PatchReading {
  import opened Base
  import opened Patches
  import opened PatchProofs
  import opened PatchText
  import opened PatchRoundTrip

  predicate AllOneLine(lines: seq<string>) {
    forall k | 0 <= k < |lines| :: OneLine(lines[k])
  }

  lemma {:induction false} SplitIsOneLine(text: string)
    ensures AllOneLine(TextLines(text))
  {
    JoinOfSplit(text);
  }

  // ---------- paths ----------

  lemma {:induction false} TrimmedPrefix(text: string)
    ensures TrimEnd(text) <= text
    ensures TrimEnd(text) == "" || !Whitespace(TrimEnd(text)[|TrimEnd(text)| - 1])
    decreases |text|
  {
    if text != "" && Whitespace(text[|text| - 1]) {
      TrimmedPrefix(text[..|text| - 1]);
    }
  }

  lemma HeaderPathPrints(line: string)
    requires OneLine(line) && 4 <= |line|
    ensures var p := HeaderPath(line[4..]); p.Some? ==> PrintablePath(p.value)
  {
    var upTo := UpTo(line[4..], '\t');
    var path := TrimEnd(upTo);
    TrimmedPrefix(upTo);
    assert forall c :: c in path ==> c in upTo;
    assert forall c :: c in upTo ==> c in line;
    assert forall c :: c in HeaderPath(line[4..]).GetOr("") ==> c in path;
  }

  // ---------- hunks ----------

  lemma {:induction false} SomeLineCounts(lines: seq<string>)
    requires |OldTexts(lines)| + |NewTexts(lines)| > 0
    ensures exists j | 0 <= j < |lines| :: !Marked(lines[j], '\\')
  {
    if lines != [] && Marked(lines[0], '\\') {
      SomeLineCounts(lines[1..]);
      var j :| 0 <= j < |lines[1..]| && !Marked(lines[1..][j], '\\');
      assert !Marked(lines[j + 1], '\\');
    }
  }

  lemma AnchorsMore(line: string, lines: seq<string>)
    requires Anchored(lines)
    requires Marked(line, '\\') && !IsNoNewline(line) ==> |OldTexts(lines)| + |NewTexts(lines)| > 0
    ensures Anchored([line] + lines)
  {
    var all := [line] + lines;
    if |OldTexts(lines)| + |NewTexts(lines)| > 0 {
      SomeLineCounts(lines);
    }
    forall k | 0 <= k < |all| && Marked(all[k], '\\') && !IsNoNewline(all[k])
      ensures exists j | k < j < |all| :: !Marked(all[j], '\\')
    {
      var from := if k == 0 then 0 else k;
      var j :| from <= j < |lines| && !Marked(lines[j], '\\');
      assert all[j + 1] == lines[j];
    }
  }

  /** `lines` is what a body still lacks, once `oldSeen` and `newSeen` lines
      of it are read. */
  predicate Completes(lines: seq<string>, h: Header, oldSeen: nat, newSeen: nat) {
    && (forall k | 0 <= k < |lines| :: HunkLine(lines[k]))
    && oldSeen + |OldTexts(lines)| == h.oldLines
    && newSeen + |NewTexts(lines)| == h.newLines
    && Anchored(lines)
  }

  lemma CompletesOneMore(raw: string, lines: seq<string>, h: Header, oldSeen: nat, newSeen: nat)
    requires OneLine(raw) && BodyLine(raw) && (oldSeen < h.oldLines || newSeen < h.newLines || IsNoNewline(raw))
    requires Completes(lines, h, oldSeen + if Counts(raw, '-') then 1 else 0,
                                 newSeen + if Counts(raw, '+') then 1 else 0)
    ensures Completes([if raw == "" then " " else raw] + lines, h, oldSeen, newSeen)
  {
    hide IsNoNewline, Anchored, OldTexts, NewTexts;
    var line := if raw == "" then " " else raw;
    assert HunkLine(line) && Counts(line, '-') == Counts(raw, '-') && Counts(line, '+') == Counts(raw, '+');
    var all := [line] + lines;
    assert all[1..] == lines;
    CountsItsTexts(all);
    AnchorsMore(line, lines);
  }

  /** The body a hunk was given has as many lines as its header says. */
  lemma {:induction false} BodyIsParseable(rest: seq<string>, at: nat, h: Header, oldSeen: nat, newSeen: nat)
    requires AllOneLine(rest)
    ensures var b := Body(rest, at, h, oldSeen, newSeen);
            b.Ok? ==> Completes(b.value.0, h, oldSeen, newSeen) && AllOneLine(b.value.1)
  {
    hide IsNoNewline, BodyLine, Counts;
    if rest != [] && (oldSeen < h.oldLines || newSeen < h.newLines || IsNoNewline(rest[0])) {
      hide Completes;
      if BodyLine(rest[0]) {
        var o := oldSeen + if Counts(rest[0], '-') then 1 else 0;
        var n := newSeen + if Counts(rest[0], '+') then 1 else 0;
        BodyIsParseable(rest[1..], at + 1, h, o, n);
        var more := Body(rest[1..], at + 1, h, o, n);
        if more.Ok? {
          CompletesOneMore(rest[0], more.value.0, h, oldSeen, newSeen);
        }
      }
    }
  }

  lemma HunkIsParseable(rest: seq<string>, at: nat)
    requires rest != [] && AllOneLine(rest)
    ensures var one := OneHunk(rest, at);
            one.Ok? ==> ParseableHunk(one.value.0) && AllOneLine(one.value.1)
  {
    hide HunkHeader, OneLine, HunkLine, Anchored, Body;
    assert AllOneLine(rest[1..]);
    var h := HunkHeader(rest[0]);
    if h.Some? {
      BodyIsParseable(rest[1..], at + 1, h.value, 0, 0);
    }
  }

  lemma {:induction false} HunksAreParseable(rest: seq<string>, at: nat)
    requires AllOneLine(rest)
    ensures var r := Hunks(rest, at);
            r.Ok? ==> (forall k | 0 <= k < |r.value.0| :: ParseableHunk(r.value.0[k])) && AllOneLine(r.value.1)
    decreases |rest|
  {
    hide OneLine, ParseableHunk, OneHunk, StartsHunk, AllOneLine;
    if rest != [] && StartsHunk(rest[0]) {
      HunkIsParseable(rest, at);
      var one := OneHunk(rest, at);
      if one.Ok? {
        HunksAreParseable(one.value.1, at + |rest| - |one.value.1|);
      }
    }
  }

  // ---------- files ----------

  lemma FileIsParseable(rest: seq<string>, at: nat)
    requires rest != [] && "--- " <= rest[0] && AllOneLine(rest)
    ensures var r := FileSection(rest, at);
            r.Ok? ==> Parseable(r.value.0) && AllOneLine(r.value.1)
  {
    hide ParseableHunk, HeaderPath, Hunks, PrintablePath;
    if |rest| >= 2 && "+++ " <= rest[1] {
      assert OneLine(rest[0]) && OneLine(rest[1]);
      HeaderPathPrints(rest[0]);
      HeaderPathPrints(rest[1]);
      assert AllOneLine(rest[2..]);
      HunksAreParseable(rest[2..], at + 2);
    }
  }

  lemma GitLeavesLines(rest: seq<string>)
    requires rest != [] && "diff --git " <= rest[0] && AllOneLine(rest)
    ensures GitSection(rest).Ok? ==> AllOneLine(GitSection(rest).value.1)
    ensures GitSection(rest).Ok? && GitSection(rest).value.0.Some? ==> GitSection(rest).value.0.value.hunks == []
  {
    hide GitPath, GitOldPath, GitRefusal, AnyCreates, AnyDeletes;
    assert AllOneLine(rest[1 + |GitHeader(rest[1..])|..]);
  }

  /** Created or deleted empty by its git header, or changed by its hunks. */
  predicate FromText(f: FilePatch) {
    f.hunks == [] || Parseable(f)
  }

  predicate AllFromText(files: seq<FilePatch>) {
    forall k | 0 <= k < |files| :: FromText(files[k])
  }

  lemma {:induction false} SectionsAreParseable(rest: seq<string>, at: nat)
    requires AllOneLine(rest)
    ensures var r := Sections(rest, at);
            r.Ok? ==> AllFromText(r.value)
    decreases |rest|
  {
    hide OneLine, Parseable, FileSection, GitSection, Binary, TrimStart;
    if rest == [] || Binary(rest[0]) {
    } else if "diff --git " <= rest[0] {
      GitLeavesLines(rest);
      if GitSection(rest).Ok? {
        var tail := GitSection(rest).value.1;
        SectionsAreParseable(tail, at + |rest| - |tail|);
      }
    } else if !("--- " <= rest[0]) {
      SectionsAreParseable(rest[1..], at + 1);
    } else {
      FileIsParseable(rest, at);
      if FileSection(rest, at).Ok? {
        var tail := FileSection(rest, at).value.1;
        SectionsAreParseable(tail, at + |rest| - |tail|);
      }
    }
  }

  /** Whatever text parses, the patches it gives are well formed: every hunk has
      the lines its header counts, the paths agree and there is a hunk, or a git
      header asked for an empty file or a removal. */
  lemma ParsedIsParseable(text: string)
    ensures var r := Parsed(text);
            r.Ok? ==> r.value != [] && AllFromText(r.value)
  {
    hide Sections, TextLines, AllFromText;
    SplitIsOneLine(text);
    SectionsAreParseable(TextLines(text), 0);
    var patches := Sections(TextLines(text), 0);
    if patches.Ok? && patches.value == [] {
      assert patches == Ok([]);
    }
  }

  // ---------- exactly when printing and parsing are inverse ----------

  /** No line of the patch ends in a carriage return. */
  predicate NoReturns(f: FilePatch) {
    forall i, k | 0 <= i < |f.hunks| && 0 <= k < |f.hunks[i].lines| :: !EndsIn(f.hunks[i].lines[k], '\r')
  }

  predicate WellFormed(f: FilePatch) {
    Parseable(f) && NoReturns(f)
  }

  lemma SameWithoutReturns(f: FilePatch)
    ensures StrippedFile(f) == f <==> NoReturns(f)
  {
    if NoReturns(f) {
      forall i | 0 <= i < |f.hunks| ensures StrippedHunks(f.hunks)[i] == f.hunks[i] {
        assert StrippedLines(f.hunks[i].lines) == f.hunks[i].lines;
      }
      assert StrippedHunks(f.hunks) == f.hunks;
    } else {
      var i, k :| 0 <= i < |f.hunks| && 0 <= k < |f.hunks[i].lines| && EndsIn(f.hunks[i].lines[k], '\r');
      var bare := StrippedHunks(f.hunks)[i].lines;
      assert |bare[k]| == |f.hunks[i].lines[k]| - 1;
    }
  }

  /** Printing patches that have hunks and parsing the text gives the same
      patches back exactly when there is one and each is well formed. */
  lemma PrintThenParse(files: seq<FilePatch>)
    requires forall k | 0 <= k < |files| :: files[k].hunks != []
    ensures Parsed(Formatted(files)) == Ok(files) <==>
            files != [] && forall k | 0 <= k < |files| :: WellFormed(files[k])
  {
    hide Parsed, Formatted, Parseable, NoReturns, StrippedFile;
    if files != [] && forall k | 0 <= k < |files| :: Parseable(files[k]) {
      PrintThenParseStrips(files);
      forall k | 0 <= k < |files| ensures StrippedFiles(files)[k] == files[k] <==> NoReturns(files[k]) {
        SameWithoutReturns(files[k]);
      }
      assert StrippedFiles(files) == files <==> forall k | 0 <= k < |files| :: NoReturns(files[k]);
    } else {
      ParsedIsParseable(Formatted(files));
    }
  }

  /** Parsing a text, printing what it gave and parsing that again changes
      nothing, unless a line of the text had a carriage return to spare. */
  lemma ParseThenPrint(text: string)
    requires Parsed(text).Ok? && forall k | 0 <= k < |Parsed(text).value| :: Parsed(text).value[k].hunks != []
    ensures Parsed(Formatted(Parsed(text).value)) == Ok(StrippedFiles(Parsed(text).value))
    ensures Parsed(Formatted(Parsed(text).value)) == Parsed(text) <==>
            forall k | 0 <= k < |Parsed(text).value| :: NoReturns(Parsed(text).value[k])
  {
    hide Parsed, Formatted, Parseable, NoReturns;
    ParsedIsParseable(text);
    PrintThenParseStrips(Parsed(text).value);
    PrintThenParse(Parsed(text).value);
  }
}
