/** The parser and the printer as the program runs them: a cursor over the
    lines, and text pushed piece by piece. */
module PatchParser {
  import opened Base
  import opened Patches
  import opened PatchText

  /** `whole` is `front` followed by what `rest` found. */
  predicate Continues<T(==)>(
    whole: Result<(seq<T>, seq<string>), ParseError>, front: seq<T>, rest: Result<(seq<T>, seq<string>), ParseError>)
  {
    match rest
    case Err(e) => whole == Err(e)
    case Ok((more, tail)) => whole.Ok? && whole.value.0 == front + more && whole.value.1 == tail
  }

  /** A cursor result says the same as a result on the lines that are left. */
  predicate Agrees<T(==)>(
    r: Result<(T, nat), ParseError>, spec: Result<(T, seq<string>), ParseError>, lines: seq<string>)
  {
    match spec
    case Err(e) => r == Err(e)
    case Ok((value, rest)) => r.Ok? && r.value.0 == value && r.value.1 <= |lines| && lines[r.value.1..] == rest
  }

  function Seen(seen: nat, line: string, c: char): nat {
    seen + if Counts(line, c) then 1 else 0
  }

  /** One more line of the body taken from the cursor. */
  lemma BodyStep(
    whole: Result<(seq<string>, seq<string>), ParseError>, lines: seq<string>, at: nat, h: Header,
    body: seq<string>, oldSeen: nat, newSeen: nat)
    requires at < |lines| && Continues(whole, body, Body(lines[at..], at, h, oldSeen, newSeen))
    requires oldSeen < h.oldLines || newSeen < h.newLines || IsNoNewline(lines[at])
    ensures !BodyLine(lines[at]) ==> whole == Err(ParseError(at + 1, BadHunkLine))
    ensures BodyLine(lines[at]) ==>
      Continues(whole, body + [if lines[at] == "" then " " else lines[at]],
                Body(lines[at + 1..], at + 1, h, Seen(oldSeen, lines[at], '-'), Seen(newSeen, lines[at], '+')))
  {
    hide IsNoNewline, BodyLine, Counts;
    assert lines[at..][0] == lines[at] && lines[at..][1..] == lines[at + 1..];
  }

  lemma BodyEnd(
    whole: Result<(seq<string>, seq<string>), ParseError>, lines: seq<string>, at: nat, h: Header,
    body: seq<string>, oldSeen: nat, newSeen: nat)
    requires at <= |lines| && Continues(whole, body, Body(lines[at..], at, h, oldSeen, newSeen))
    requires at < |lines| ==> !(oldSeen < h.oldLines || newSeen < h.newLines || IsNoNewline(lines[at]))
    ensures if oldSeen != h.oldLines || newSeen != h.newLines then whole == Err(ParseError(at + 1, ShortHunk))
            else Agrees(Ok((body, at)), whole, lines)
  {
    hide IsNoNewline, BodyLine, Counts;
    assert body + [] == body;
  }

  method ParseBody(lines: seq<string>, start: nat, h: Header) returns (r: Result<(seq<string>, nat), ParseError>)
    requires start <= |lines|
    ensures Agrees(r, Body(lines[start..], start, h, 0, 0), lines)
  {
    hide Body, IsNoNewline, BodyLine, Counts, Continues;
    ghost var whole := Body(lines[start..], start, h, 0, 0);
    var at: nat, body: seq<string> := start, [];
    var oldSeen: nat, newSeen: nat := 0, 0;
    ContinuesAtStart(whole);
    while at < |lines| && (oldSeen < h.oldLines || newSeen < h.newLines || IsNoNewline(lines[at]))
      invariant start <= at <= |lines|
      invariant Continues(whole, body, Body(lines[at..], at, h, oldSeen, newSeen))
    {
      var line := lines[at];
      BodyStep(whole, lines, at, h, body, oldSeen, newSeen);
      if !BodyLine(line) {
        return Err(ParseError(at + 1, BadHunkLine));
      }
      oldSeen, newSeen := Seen(oldSeen, line, '-'), Seen(newSeen, line, '+');
      // An empty line stands for an empty line of context.
      body := body + [if line == "" then " " else line];
      at := at + 1;
    }
    BodyEnd(whole, lines, at, h, body, oldSeen, newSeen);
    if oldSeen != h.oldLines || newSeen != h.newLines {
      return Err(ParseError(at + 1, ShortHunk));
    }
    return Ok((body, at));
  }

  lemma ContinuesAtStart<T>(whole: Result<(seq<T>, seq<string>), ParseError>)
    ensures Continues(whole, [], whole)
  {
    if whole.Ok? {
      assert [] + whole.value.0 == whole.value.0;
    }
  }

  method ParseHunk(lines: seq<string>, at: nat) returns (r: Result<(Hunk, nat), ParseError>)
    requires at < |lines|
    ensures Agrees(r, OneHunk(lines[at..], at), lines)
    ensures r.Ok? ==> at < r.value.1
  {
    hide Body, HunkHeader;
    assert lines[at..][0] == lines[at] && lines[at..][1..] == lines[at + 1..];
    var h := HunkHeader(lines[at]);
    if h.None? {
      return Err(ParseError(at + 1, MalformedHeader));
    }
    var body := ParseBody(lines, at + 1, h.value);
    if body.Err? {
      return Err(body.error);
    }
    return Ok((HunkOf(h.value, body.value.0), body.value.1));
  }

  lemma HunksStep(
    whole: Result<(seq<Hunk>, seq<string>), ParseError>, lines: seq<string>, at: nat,
    hunks: seq<Hunk>, one: Result<(Hunk, nat), ParseError>)
    requires at < |lines| && Continues(whole, hunks, Hunks(lines[at..], at)) && StartsHunk(lines[at])
    requires Agrees(one, OneHunk(lines[at..], at), lines)
    ensures one.Err? ==> whole == Err(one.error)
    ensures one.Ok? ==>
      Continues(whole, hunks + [one.value.0], Hunks(lines[one.value.1..], one.value.1))
  {
    hide OneHunk, StartsHunk;
  }

  lemma HunksEnd(whole: Result<(seq<Hunk>, seq<string>), ParseError>, lines: seq<string>, at: nat, hunks: seq<Hunk>)
    requires at <= |lines| && Continues(whole, hunks, Hunks(lines[at..], at))
    requires at < |lines| ==> !StartsHunk(lines[at])
    ensures Agrees(Ok((hunks, at)), whole, lines)
  {
    hide StartsHunk;
    assert hunks + [] == hunks;
  }

  method ParseHunks(lines: seq<string>, start: nat) returns (r: Result<(seq<Hunk>, nat), ParseError>)
    requires start <= |lines|
    ensures Agrees(r, Hunks(lines[start..], start), lines)
  {
    hide Hunks, OneHunk, StartsHunk, Continues;
    ghost var whole := Hunks(lines[start..], start);
    var at: nat, hunks: seq<Hunk> := start, [];
    ContinuesAtStart(whole);
    while at < |lines| && StartsHunk(lines[at])
      invariant start <= at <= |lines|
      invariant Continues(whole, hunks, Hunks(lines[at..], at))
      decreases |lines| - at
    {
      var one := ParseHunk(lines, at);
      HunksStep(whole, lines, at, hunks, one);
      if one.Err? {
        return Err(one.error);
      }
      hunks := hunks + [one.value.0];
      at := one.value.1;
    }
    HunksEnd(whole, lines, at, hunks);
    return Ok((hunks, at));
  }

  method ParseFile(lines: seq<string>, at: nat) returns (r: Result<(FilePatch, nat), ParseError>)
    requires at < |lines| && "--- " <= lines[at]
    ensures Agrees(r, FileSection(lines[at..], at), lines)
  {
    hide Hunks, HeaderPath;
    var oldPath := HeaderPath(lines[at][4..]);
    if at + 1 == |lines| || !("+++ " <= lines[at + 1]) {
      return Err(ParseError(at + 2, NoPlusLine));
    }
    var newPath := HeaderPath(lines[at + 1][4..]);
    if oldPath.Some? && newPath.Some? && oldPath != newPath {
      return Err(ParseError(at + 1, MovesFile(oldPath.value, newPath.value)));
    }
    assert lines[at..][2..] == lines[at + 2..];
    var hunks := ParseHunks(lines, at + 2);
    if hunks.Err? {
      return Err(hunks.error);
    }
    if hunks.value.0 == [] {
      return Err(ParseError(at + 3, NoHunks));
    }
    return Ok((FilePatch(oldPath, newPath, hunks.value.0), hunks.value.1));
  }

  method ParseGit(lines: seq<string>, at: nat) returns (r: Result<(Option<FilePatch>, nat), ParseError>)
    requires at < |lines| && "diff --git " <= lines[at]
    ensures Agrees(r, GitSection(lines[at..]), lines)
  {
    hide GitPath, GitOldPath, GitRefusal, AnyCreates, AnyDeletes, EndsGitHeader;
    var names := lines[at][11..];
    var path := GitPath(names);
    ghost var header := GitHeader(lines[at + 1..]);
    assert lines[at..][1..] == lines[at + 1..];
    var end, refusal, created, deleted := ScanGitHeader(lines, at + 1);
    if refusal.Some? {
      return Err(Unsupported(path, refusal.value));
    }
    assert lines[at..][1 + |header|..] == lines[end..];
    if end < |lines| && "--- " <= lines[end] {
      return Ok((None, end));
    }
    if created {
      return Ok((Some(FilePatch(None, Some(path), [])), end));
    }
    if deleted {
      return Ok((Some(FilePatch(Some(GitOldPath(names)), None, [])), end));
    }
    return Err(Unsupported(path, NothingToApply));
  }

  /** Where the header starting at `start` ends, why it is refused if it is, and
      whether it creates or deletes its file. */
  method ScanGitHeader(lines: seq<string>, start: nat)
    returns (end: nat, refusal: Option<Refusal>, created: bool, deleted: bool)
    requires start <= |lines|
    ensures refusal == GitRefusal(GitHeader(lines[start..]))
    ensures end <= |lines|
    ensures refusal.None? ==>
      && end == start + |GitHeader(lines[start..])|
      && created == AnyCreates(GitHeader(lines[start..]))
      && deleted == AnyDeletes(GitHeader(lines[start..]))
  {
    hide RenameLine, ModeLine, Binary, EndsGitHeader, AnyCreates, AnyDeletes, CreatesFile, DeletesFile;
    hide GitHeader, GitRefusal;
    ghost var header := GitHeader(lines[start..]);
    end, refusal, created, deleted := start, None, false, false;
    ghost var seen: seq<string> := [];
    NoLines();
    assert HeaderSeen(header, seen, lines[end..]);
    while end < |lines| && !EndsGitHeader(lines[end])
      invariant start <= end <= |lines| && refusal == None
      invariant |seen| == end - start
      invariant HeaderSeen(header, seen, lines[end..])
      invariant created == AnyCreates(seen)
      invariant deleted == AnyDeletes(seen)
    {
      var line := lines[end];
      HeaderStep(header, seen, lines, end);
      if RenameLine(line) {
        refusal := Some(Renames);
        return;
      }
      if ModeLine(line) {
        refusal := Some(ChangesMode);
        return;
      }
      if Binary(line) {
        refusal := Some(BinaryFile);
        return;
      }
      OneMoreLine(seen, line);
      created := created || CreatesFile(line);
      deleted := deleted || DeletesFile(line);
      seen := seen + [line];
      end := end + 1;
    }
    HeaderEnd(header, seen, lines, end);
  }

  /** `header` is `seen` and the header lines that start `rest`, and nothing seen
      so far is refused. */
  predicate HeaderSeen(header: seq<string>, seen: seq<string>, rest: seq<string>) {
    header == seen + GitHeader(rest) && GitRefusal(header) == GitRefusal(GitHeader(rest))
  }

  lemma HeaderStep(header: seq<string>, seen: seq<string>, lines: seq<string>, end: nat)
    requires end < |lines| && HeaderSeen(header, seen, lines[end..]) && !EndsGitHeader(lines[end])
    ensures var line := lines[end];
            if RenameLine(line) then GitRefusal(header) == Some(Renames)
            else if ModeLine(line) then GitRefusal(header) == Some(ChangesMode)
            else if Binary(line) then GitRefusal(header) == Some(BinaryFile)
            else HeaderSeen(header, seen + [line], lines[end + 1..])
  {
    hide RenameLine, ModeLine, Binary, EndsGitHeader;
    assert lines[end..][0] == lines[end] && lines[end..][1..] == lines[end + 1..];
    var more := GitHeader(lines[end + 1..]);
    assert GitHeader(lines[end..]) == [lines[end]] + more;
    assert seen + ([lines[end]] + more) == seen + [lines[end]] + more;
    assert ([lines[end]] + more)[1..] == more;
  }

  lemma HeaderEnd(header: seq<string>, seen: seq<string>, lines: seq<string>, end: nat)
    requires end <= |lines| && HeaderSeen(header, seen, lines[end..]) && (end < |lines| ==> EndsGitHeader(lines[end]))
    ensures header == seen && GitRefusal(header) == None
  {
  }

  lemma NoLines()
    ensures !AnyCreates([]) && !AnyDeletes([])
  {
  }

  lemma OneMoreLine(header: seq<string>, line: string)
    ensures AnyCreates(header + [line]) <==> AnyCreates(header) || CreatesFile(line)
    ensures AnyDeletes(header + [line]) <==> AnyDeletes(header) || DeletesFile(line)
  {
    hide CreatesFile, DeletesFile;
    var all := header + [line];
    assert all[|header|] == line;
    assert forall k | 0 <= k < |header| :: all[k] == header[k];
  }

  predicate Follows(
    whole: Result<seq<FilePatch>, ParseError>, front: seq<FilePatch>, rest: Result<seq<FilePatch>, ParseError>)
  {
    match rest
    case Err(e) => whole == Err(e)
    case Ok(more) => whole.Ok? && whole.value == front + more
  }

  method ParsePatch(text: string) returns (r: Result<seq<FilePatch>, ParseError>)
    ensures r == Parsed(text)
  {
    hide GitSection, FileSection, TrimStart, Split, Binary;
    var split := SplitLines(text);
    var lines := Texts(split);
    var at: nat := 0;
    var patches: seq<FilePatch> := [];
    while at < |lines|
      invariant at <= |lines|
      invariant Follows(Sections(lines, 0), patches, Sections(lines[at..], at))
      decreases |lines| - at
    {
      var line := lines[at];
      assert lines[at..][0] == line && lines[at..][1..] == lines[at + 1..];
      if Binary(line) {
        return Err(Unsupported(TrimStart(line, "Binary files "), BinaryFile));
      }
      if "diff --git " <= line {
        var section := ParseGit(lines, at);
        if section.Err? {
          return Err(section.error);
        }
        if section.value.0.Some? {
          patches := patches + [section.value.0.value];
        }
        at := section.value.1;
      } else if "--- " <= line {
        var section := ParseFile(lines, at);
        if section.Err? {
          return Err(section.error);
        }
        patches := patches + [section.value.0];
        at := section.value.1;
      } else {
        at := at + 1;
      }
    }
    assert patches + [] == patches;
    if patches == [] {
      return Err(ParseError(1, NoFileHeader));
    }
    return Ok(patches);
  }

  method FormatPatch(files: seq<FilePatch>) returns (out: string)
    ensures out == Formatted(files)
  {
    hide Unlines, FilesText, FileText;
    out := "";
    var k := 0;
    NothingToPrint();
    assert files[0..] == files;
    while k < |files|
      invariant 0 <= k <= |files|
      invariant Formatted(files) == out + Unlines(FilesText(files[k..]))
    {
      var file := files[k];
      assert files[k..][0] == file && files[k..][1..] == files[k + 1..];
      FilesTextFirst(files[k..]);
      UnlinesAdd(FileText(file), FilesText(files[k + 1..]));
      var text := FormatFile(file);
      Regroup(out, text, Unlines(FilesText(files[k + 1..])));
      out := out + text;
      k := k + 1;
    }
    assert files[k..] == [];
  }

  method FormatFile(file: FilePatch) returns (out: string)
    ensures out == Unlines(FileText(file))
  {
    hide PathText, HeaderText;
    out := "--- " + PathText(file.oldPath, "a/") + "\n+++ " + PathText(file.newPath, "b/") + "\n";
    UnlinesAdd(["--- " + PathText(file.oldPath, "a/"), "+++ " + PathText(file.newPath, "b/")], HunkText(file.hunks));
    TwoLines("--- " + PathText(file.oldPath, "a/"), "+++ " + PathText(file.newPath, "b/"));
    var n := 0;
    while n < |file.hunks|
      invariant 0 <= n <= |file.hunks|
      invariant Unlines(FileText(file)) == out + Unlines(HunkText(file.hunks[n..]))
    {
      var hunk := file.hunks[n];
      assert file.hunks[n..][0] == hunk && file.hunks[n..][1..] == file.hunks[n + 1..];
      UnlinesAdd([HeaderText(hunk)] + hunk.lines, HunkText(file.hunks[n + 1..]));
      UnlinesAdd([HeaderText(hunk)], hunk.lines);
      var body := FormatLines(hunk.lines);
      out := out + HeaderText(hunk) + "\n" + body;
      n := n + 1;
    }
  }

  method FormatLines(lines: seq<string>) returns (out: string)
    ensures out == Unlines(lines)
  {
    hide Unlines;
    out := "";
    var k := 0;
    NothingToPrint();
    assert lines[0..] == lines;
    while k < |lines|
      invariant 0 <= k <= |lines|
      invariant Unlines(lines) == out + Unlines(lines[k..])
    {
      assert lines[k..][0] == lines[k] && lines[k..][1..] == lines[k + 1..];
      UnlinesFirst(lines[k..]);
      Regroup(out, lines[k] + "\n", Unlines(lines[k + 1..]));
      out := out + (lines[k] + "\n");
      k := k + 1;
    }
    assert lines[k..] == [];
  }

  lemma NothingToPrint()
    ensures Unlines([]) == "" && FilesText([]) == []
  {
  }

  lemma UnlinesFirst(lines: seq<string>)
    requires lines != []
    ensures Unlines(lines) == (lines[0] + "\n") + Unlines(lines[1..])
  {
  }

  lemma FilesTextFirst(files: seq<FilePatch>)
    requires files != []
    ensures FilesText(files) == FileText(files[0]) + FilesText(files[1..])
  {
  }

  lemma {:induction false} UnlinesAdd(a: seq<string>, b: seq<string>)
    ensures Unlines(a + b) == Unlines(a) + Unlines(b)
  {
    if a == [] {
      assert a + b == b;
    } else {
      assert (a + b)[1..] == a[1..] + b;
      UnlinesAdd(a[1..], b);
    }
  }

  lemma TwoLines(a: string, b: string)
    ensures Unlines([a, b]) == a + "\n" + b + "\n"
  {
    assert [a, b][1..] == [b] && [b][1..] == [];
    assert Unlines([b]) == b + "\n";
    assert a + "\n" + (b + "\n") == a + "\n" + b + "\n";
  }
}
