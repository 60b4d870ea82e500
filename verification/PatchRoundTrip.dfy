/** Printing patches and reading them back. */
module PatchRoundTrip {
  import opened Base
  import opened Patches
  import opened PatchProofs
  import opened PatchText

  // ---------- strings ----------

  lemma Cutting(head: string, c: char, tail: string)
    requires c !in head
    ensures UpTo(head + [c] + tail, c) == head && After(head + [c] + tail, c) == Some(tail)
  {
    FirstAt(head, c, tail);
    assert (head + [c] + tail)[..|head|] == head;
  }

  lemma {:induction false} NotFound(text: string, c: char)
    requires c !in text
    ensures IndexOf(text, c) == None
  {
    if text != "" {
      NotFound(text[1..], c);
    }
  }

  lemma {:induction false} FindAtEnd(head: string)
    requires '@' !in head
    ensures Find(head + " @@", " @@") == Some(|head|)
  {
    var text := head + " @@";
    if head == "" {
      assert text == " @@";
    } else {
      assert text[1] != '@';
      assert !(" @@" <= text);
      assert text[1..] == head[1..] + " @@";
      FindAtEnd(head[1..]);
    }
  }

  lemma {:induction false} DigitsOfDecimal(n: nat)
    ensures Digits(Decimal(n)) == Some(n)
  {
    var text, last := Decimal(n), ['0' + (n % 10) as char];
    if n < 10 {
      assert text[..|text| - 1] == "";
    } else {
      assert text == Decimal(n / 10) + last;
      assert text[..|text| - 1] == Decimal(n / 10);
      DigitsOfDecimal(n / 10);
    }
  }

  lemma NumberOfDecimal(n: nat)
    ensures Number(Decimal(n)) == Some(n)
  {
    DigitsOfDecimal(n);
    assert Digit(Decimal(n)[0]);
  }

  lemma NoneIn(text: string, c: char)
    requires !Digit(c) && forall k | 0 <= k < |text| :: Digit(text[k])
    ensures c !in text
  {
  }

  // ---------- headers ----------

  lemma RangeOfText(start: nat, count: nat, sign: string)
    ensures Range(RangeText(sign, start, count), sign) == Some((start, count))
  {
    var part := RangeText(sign, start, count);
    assert part == sign + (Decimal(start) + "," + Decimal(count));
    assert part[|sign|..] == Decimal(start) + "," + Decimal(count);
    NoneIn(Decimal(start), ',');
    Cutting(Decimal(start), ',', Decimal(count));
    NumberOfDecimal(start);
    NumberOfDecimal(count);
  }

  lemma RangesHaveNo(start: nat, count: nat, sign: string, c: char)
    requires !Digit(c) && c != ',' && c !in sign
    ensures c !in RangeText(sign, start, count)
  {
    NoneIn(Decimal(start), c);
    NoneIn(Decimal(count), c);
  }

  /** A printed hunk header reads back as its four numbers. */
  lemma HeaderReadsBack(h: Hunk)
    ensures HunkHeader(HeaderText(h)) == Some(Header(h.oldStart, h.oldLines, h.newStart, h.newLines))
  {
    hide Range, HunkHeader;
    var was, now := RangeText("-", h.oldStart, h.oldLines), RangeText("+", h.newStart, h.newLines);
    RangesHaveNo(h.oldStart, h.oldLines, "-", '@');
    RangesHaveNo(h.newStart, h.newLines, "+", '@');
    RangesHaveNo(h.oldStart, h.oldLines, "-", ' ');
    RangesHaveNo(h.newStart, h.newLines, "+", ' ');
    RangeOfText(h.oldStart, h.oldLines, "-");
    RangeOfText(h.newStart, h.newLines, "+");
    hide RangeText;
    HeaderOfRanges(was, now);
  }

  lemma HeaderOfRanges(was: string, now: string)
    requires '@' !in was && '@' !in now && ' ' !in was && ' ' !in now
    ensures HunkHeader("@@ " + (was + " " + now + " @@")) ==
            if Range(was, "-").Some? && Range(now, "+").Some?
            then Some(Header(Range(was, "-").value.0, Range(was, "-").value.1,
                             Range(now, "+").value.0, Range(now, "+").value.1))
            else None
  {
    hide Range, Find;
    var ranges := was + " " + now;
    FindAtEnd(ranges);
    assert ("@@ " + (ranges + " @@"))[3..] == ranges + " @@";
    assert (ranges + " @@")[..|ranges|] == ranges;
    Cutting(was, ' ', now);
    NotFound(now, ' ');
  }

  predicate PrintablePath(path: string) {
    '\n' !in path && '\t' !in path && (path == "" || !Whitespace(path[|path| - 1]))
  }

  lemma PathReadsBack(path: Option<string>, prefix: string)
    requires prefix == "a/" || prefix == "b/"
    requires path.Some? ==> PrintablePath(path.value)
    ensures HeaderPath(PathText(path, prefix)) == path
  {
    var text := PathText(path, prefix);
    NotFound(text, '\t');
    assert !Whitespace(text[|text| - 1]);
    if path.Some? {
      assert text[0] == 'a' || text[0] == 'b';
      assert text[2..] == path.value;
      assert prefix == "b/" ==> text[0] != 'a';
    }
  }

  // ---------- hunk bodies ----------

  /** A line a hunk may hold. */
  predicate HunkLine(line: string) {
    line != "" && BodyLine(line) && '\n' !in line
  }

  /** A backslash line other than the no-newline marker is followed by a line
      that counts. */
  predicate Anchored(lines: seq<string>) {
    forall k | 0 <= k < |lines| && Marked(lines[k], '\\') && !IsNoNewline(lines[k]) ::
      exists j | k < j < |lines| :: !Marked(lines[j], '\\')
  }

  predicate ParseableHunk(h: Hunk) {
    && (forall k | 0 <= k < |h.lines| :: HunkLine(h.lines[k]))
    && |OldTexts(h.lines)| == h.oldLines
    && |NewTexts(h.lines)| == h.newLines
    && Anchored(h.lines)
  }

  lemma {:induction false} SomeCount(lines: seq<string>, j: nat)
    requires j < |lines| && HunkLine(lines[j]) && !Marked(lines[j], '\\')
    ensures |OldTexts(lines)| + |NewTexts(lines)| > 0
  {
    if j > 0 {
      SomeCount(lines[1..], j - 1);
    }
  }

  lemma TailAnchored(lines: seq<string>)
    requires lines != [] && Anchored(lines)
    ensures Anchored(lines[1..])
  {
    var rest := lines[1..];
    forall k | 0 <= k < |rest| && Marked(rest[k], '\\') && !IsNoNewline(rest[k])
      ensures exists j | k < j < |rest| :: !Marked(rest[j], '\\')
    {
      assert lines[k + 1] == rest[k];
      var j :| k + 1 < j < |lines| && !Marked(lines[j], '\\');
      assert !Marked(rest[j - 1], '\\');
    }
  }

  /** The hunk still expects the first of `lines`. */
  lemma StillExpects(lines: seq<string>, h: Header, oldSeen: nat, newSeen: nat)
    requires lines != [] && (forall k | 0 <= k < |lines| :: HunkLine(lines[k])) && Anchored(lines)
    requires oldSeen + |OldTexts(lines)| == h.oldLines && newSeen + |NewTexts(lines)| == h.newLines
    ensures oldSeen < h.oldLines || newSeen < h.newLines || IsNoNewline(lines[0])
  {
    if Marked(lines[0], '\\') && !IsNoNewline(lines[0]) {
      var j :| 0 < j < |lines| && !Marked(lines[j], '\\');
      SomeCount(lines, j);
    } else if !Marked(lines[0], '\\') {
      SomeCount(lines, 0);
    }
  }

  lemma CountsItsTexts(lines: seq<string>)
    requires lines != [] && lines[0] != ""
    ensures |OldTexts(lines)| == (if Counts(lines[0], '-') then 1 else 0) + |OldTexts(lines[1..])|
    ensures |NewTexts(lines)| == (if Counts(lines[0], '+') then 1 else 0) + |NewTexts(lines[1..])|
  {
  }

  lemma BodyStops(tail: seq<string>, at: nat, h: Header, oldSeen: nat, newSeen: nat)
    requires oldSeen == h.oldLines && newSeen == h.newLines && (tail != [] ==> !IsNoNewline(tail[0]))
    ensures Body(tail, at, h, oldSeen, newSeen) == Ok(([], tail))
  {
  }

  lemma BodyTakes(rest: seq<string>, at: nat, h: Header, oldSeen: nat, newSeen: nat)
    requires rest != [] && HunkLine(rest[0])
    requires oldSeen < h.oldLines || newSeen < h.newLines || IsNoNewline(rest[0])
    ensures var more := Body(rest[1..], at + 1, h, oldSeen + if Counts(rest[0], '-') then 1 else 0,
                                                   newSeen + if Counts(rest[0], '+') then 1 else 0);
            more.Ok? ==> Body(rest, at, h, oldSeen, newSeen) == Ok(([rest[0]] + more.value.0, more.value.1))
  {
  }

  lemma {:induction false} BodyReadsBack(
    lines: seq<string>, tail: seq<string>, at: nat, h: Header, oldSeen: nat, newSeen: nat)
    requires (forall k | 0 <= k < |lines| :: HunkLine(lines[k])) && Anchored(lines)
    requires oldSeen + |OldTexts(lines)| == h.oldLines && newSeen + |NewTexts(lines)| == h.newLines
    requires tail != [] ==> !IsNoNewline(tail[0])
    ensures Body(lines + tail, at, h, oldSeen, newSeen) == Ok((lines, tail))
  {
    hide Body;
    if lines == [] {
      assert lines + tail == tail;
      BodyStops(tail, at, h, oldSeen, newSeen);
    } else {
      hide IsNoNewline, Anchored, Counts, OldTexts, NewTexts;
      assert HunkLine(lines[0]);
      StillExpects(lines, h, oldSeen, newSeen);
      TailAnchored(lines);
      CountsItsTexts(lines);
      hide HunkLine;
      assert (lines + tail)[0] == lines[0] && (lines + tail)[1..] == lines[1..] + tail;
      BodyTakes(lines + tail, at, h, oldSeen, newSeen);
      BodyReadsBack(lines[1..], tail, at + 1, h, oldSeen + if Counts(lines[0], '-') then 1 else 0,
                                                 newSeen + if Counts(lines[0], '+') then 1 else 0);
      assert [lines[0]] + lines[1..] == lines;
    }
  }

  // ---------- files ----------

  predicate Parseable(f: FilePatch) {
    && (f.oldPath.Some? ==> PrintablePath(f.oldPath.value))
    && (f.newPath.Some? ==> PrintablePath(f.newPath.value))
    && (f.oldPath.Some? && f.newPath.Some? ==> f.oldPath == f.newPath)
    && f.hunks != []
    && forall k | 0 <= k < |f.hunks| :: ParseableHunk(f.hunks[k])
  }

  /** A line that ends a list of hunks. */
  predicate EndsHunks(rest: seq<string>) {
    rest != [] ==> !StartsHunk(rest[0]) && !IsNoNewline(rest[0])
  }

  lemma HunkReadsBack(h: Hunk, tail: seq<string>, at: nat)
    requires ParseableHunk(h) && (tail != [] ==> !IsNoNewline(tail[0]))
    ensures OneHunk([HeaderText(h)] + h.lines + tail, at) == Ok((h, tail))
  {
    hide HunkHeader, HeaderText, Body;
    HeaderReadsBack(h);
    var rest := [HeaderText(h)] + h.lines + tail;
    assert rest[0] == HeaderText(h) && rest[1..] == h.lines + tail;
    BodyReadsBack(h.lines, tail, at + 1, Header(h.oldStart, h.oldLines, h.newStart, h.newLines), 0, 0);
  }

  lemma HeaderStartsHunk(h: Hunk)
    ensures StartsHunk(HeaderText(h)) && !IsNoNewline(HeaderText(h))
  {
    assert HeaderText(h)[0] == '@' && HeaderText(h)[1] == '@';
  }

  lemma {:induction false} HunksReadBack(hunks: seq<Hunk>, tail: seq<string>, at: nat)
    requires (forall k | 0 <= k < |hunks| :: ParseableHunk(hunks[k])) && EndsHunks(tail)
    ensures Hunks(HunkText(hunks) + tail, at) == Ok((hunks, tail))
    decreases |hunks|
  {
    hide ParseableHunk, HeaderText, OneHunk, StartsHunk, IsNoNewline;
    if hunks == [] {
      assert HunkText(hunks) + tail == tail;
    } else {
      var more := HunkText(hunks[1..]) + tail;
      assert HunkText(hunks) + tail == [HeaderText(hunks[0])] + hunks[0].lines + more;
      HeaderStartsHunk(hunks[0]);
      if |hunks| > 1 {
        HeaderStartsHunk(hunks[1]);
        assert more[0] == HeaderText(hunks[1]);
      } else {
        assert more == tail;
      }
      HunkReadsBack(hunks[0], more, at);
      hide EndsHunks;
      HunksReadBack(hunks[1..], tail, at + |HunkText(hunks) + tail| - |more|);
      assert [hunks[0]] + hunks[1..] == hunks;
    }
  }

  lemma FileReadsBack(f: FilePatch, tail: seq<string>, at: nat)
    requires Parseable(f) && EndsHunks(tail)
    ensures "--- " <= (FileText(f) + tail)[0]
    ensures FileSection(FileText(f) + tail, at) == Ok((f, tail))
  {
    hide ParseableHunk, HunkText, PathText, HeaderPath, Hunks, EndsHunks;
    var rest := FileText(f) + tail;
    assert rest[0] == "--- " + PathText(f.oldPath, "a/");
    assert rest[1] == "+++ " + PathText(f.newPath, "b/");
    assert rest[2..] == HunkText(f.hunks) + tail;
    assert rest[0][4..] == PathText(f.oldPath, "a/") && rest[1][4..] == PathText(f.newPath, "b/");
    PathReadsBack(f.oldPath, "a/");
    PathReadsBack(f.newPath, "b/");
    HunksReadBack(f.hunks, tail, at + 2);
  }

  lemma FileTextStarts(files: seq<FilePatch>)
    ensures EndsHunks(FilesText(files))
    ensures files != [] ==>
      && FilesText(files) != [] && "--- " <= FilesText(files)[0]
      && !Binary(FilesText(files)[0]) && !("diff --git " <= FilesText(files)[0])
  {
    if files != [] {
      var line := FilesText(files)[0];
      assert line == "--- " + PathText(files[0].oldPath, "a/");
      assert line[0] == '-';
    }
  }

  lemma {:induction false} SectionsReadBack(files: seq<FilePatch>, at: nat)
    requires forall k | 0 <= k < |files| :: Parseable(files[k])
    ensures Sections(FilesText(files), at) == Ok(files)
    decreases |files|
  {
    hide Parseable, FileSection, FileText, Binary, GitSection, EndsHunks;
    if files != [] {
      FileTextStarts(files);
      FileTextStarts(files[1..]);
      var rest := FilesText(files[1..]);
      FileReadsBack(files[0], rest, at);
      SectionsReadBack(files[1..], at + |FilesText(files)| - |rest|);
      assert [files[0]] + files[1..] == files;
    }
  }

  // ---------- text ----------

  /** A line as it reads back: one carriage return before the newline is taken
      for part of the line ending. */
  function Stripped(line: string): string {
    if EndsIn(line, '\r') then line[..|line| - 1] else line
  }

  function StrippedLines(lines: seq<string>): (r: seq<string>)
    ensures |r| == |lines| && forall k | 0 <= k < |lines| :: r[k] == Stripped(lines[k])
  {
    seq(|lines|, k requires 0 <= k < |lines| => Stripped(lines[k]))
  }

  function StrippedHunk(h: Hunk): Hunk {
    h.(lines := StrippedLines(h.lines))
  }

  function StrippedHunks(hunks: seq<Hunk>): (r: seq<Hunk>)
    ensures |r| == |hunks| && forall k | 0 <= k < |hunks| :: r[k] == StrippedHunk(hunks[k])
  {
    seq(|hunks|, k requires 0 <= k < |hunks| => StrippedHunk(hunks[k]))
  }

  function StrippedFile(f: FilePatch): FilePatch {
    f.(hunks := StrippedHunks(f.hunks))
  }

  function StrippedFiles(files: seq<FilePatch>): (r: seq<FilePatch>)
    ensures |r| == |files| && forall k | 0 <= k < |files| :: r[k] == StrippedFile(files[k])
  {
    seq(|files|, k requires 0 <= k < |files| => StrippedFile(files[k]))
  }

  predicate OneLine(line: string) {
    '\n' !in line
  }

  lemma CutLine(line: string, rest: string)
    requires OneLine(line)
    ensures Cut(line + "\n" + rest) == (Ended(line), rest)
  {
    FirstAt(line, '\n', rest);
    var text := line + "\n" + rest;
    assert text[..|line|] == line;
    assert text[|line| + 1..] == rest;
  }

  lemma {:induction false} LinesOfUnlines(lines: seq<string>)
    requires forall k | 0 <= k < |lines| :: OneLine(lines[k])
    ensures TextLines(Unlines(lines)) == StrippedLines(lines)
  {
    hide Cut, OneLine, Stripped, Ended;
    if lines != [] {
      var rest := Unlines(lines[1..]);
      CutLine(lines[0], rest);
      LinesOfUnlines(lines[1..]);
      assert Split(Unlines(lines)) == [Ended(lines[0])] + Split(rest);
      assert Ended(lines[0]).text == Stripped(lines[0]) by { EndedIsStripped(lines[0]); }
      assert TextLines(Unlines(lines)) == [Stripped(lines[0])] + TextLines(rest);
    }
  }

  lemma EndedIsStripped(line: string)
    ensures Ended(line).text == Stripped(line)
  {
  }

  // ---------- stripping keeps patches well-formed ----------

  lemma {:induction false} StrippedTexts(lines: seq<string>)
    requires forall k | 0 <= k < |lines| :: HunkLine(lines[k])
    ensures forall k | 0 <= k < |lines| :: HunkLine(StrippedLines(lines)[k])
    ensures |OldTexts(StrippedLines(lines))| == |OldTexts(lines)|
    ensures |NewTexts(StrippedLines(lines))| == |NewTexts(lines)|
  {
    if lines != [] {
      assert HunkLine(lines[0]);
      StrippedTexts(lines[1..]);
      assert StrippedLines(lines) == [Stripped(lines[0])] + StrippedLines(lines[1..]);
    }
  }

  lemma StrippedStaysParseable(h: Hunk)
    requires ParseableHunk(h)
    ensures ParseableHunk(StrippedHunk(h))
  {
    hide OldTexts, NewTexts, HunkLine;
    var lines, bare := h.lines, StrippedLines(h.lines);
    StrippedTexts(lines);
    assert forall k | 0 <= k < |lines| :: Marked(bare[k], '\\') ==> Marked(lines[k], '\\');
    assert forall k | 0 <= k < |lines| && HunkLine(lines[k]) ::
      IsNoNewline(lines[k]) ==> IsNoNewline(bare[k]);
    forall k | 0 <= k < |bare| && Marked(bare[k], '\\') && !IsNoNewline(bare[k])
      ensures exists j | k < j < |bare| :: !Marked(bare[j], '\\')
    {
      var j :| k < j < |lines| && !Marked(lines[j], '\\');
      assert !Marked(bare[j], '\\');
    }
  }

  lemma FileStaysParseable(f: FilePatch)
    requires Parseable(f)
    ensures Parseable(StrippedFile(f))
  {
    hide ParseableHunk, StrippedHunk;
    forall k | 0 <= k < |f.hunks| ensures ParseableHunk(StrippedHunks(f.hunks)[k]) {
      StrippedStaysParseable(f.hunks[k]);
    }
  }

  lemma PathIsOneLine(path: Option<string>, prefix: string, lead: string)
    requires (path.Some? ==> PrintablePath(path.value)) && OneLine(lead)
    requires prefix == "a/" || prefix == "b/"
    ensures OneLine(lead + PathText(path, prefix))
    ensures Stripped(lead + PathText(path, prefix)) == lead + PathText(path, prefix)
  {
    var text := PathText(path, prefix);
    assert text[|text| - 1] != '\r';
  }

  lemma HeaderIsOneLine(h: Hunk)
    ensures OneLine(HeaderText(h)) && Stripped(HeaderText(h)) == HeaderText(h)
  {
    NoneIn(Decimal(h.oldStart), '\n');
    NoneIn(Decimal(h.oldLines), '\n');
    NoneIn(Decimal(h.newStart), '\n');
    NoneIn(Decimal(h.newLines), '\n');
    assert HeaderText(h)[|HeaderText(h)| - 1] == '@';
  }

  lemma {:induction false} HunkTextStripped(hunks: seq<Hunk>)
    requires forall k | 0 <= k < |hunks| :: ParseableHunk(hunks[k])
    ensures forall k | 0 <= k < |HunkText(hunks)| :: OneLine(HunkText(hunks)[k])
    ensures StrippedLines(HunkText(hunks)) == HunkText(StrippedHunks(hunks))
  {
    hide HeaderText;
    if hunks != [] {
      var h := hunks[0];
      assert ParseableHunk(h);
      assert forall k | 0 <= k < |h.lines| :: HunkLine(h.lines[k]) && OneLine(h.lines[k]);
      HeaderIsOneLine(h);
      HunkTextStripped(hunks[1..]);
      hide ParseableHunk, OneLine, Stripped, HunkLine;
      SameHeader(h);
      StrippedAdd([HeaderText(h)], h.lines);
      StrippedAdd([HeaderText(h)] + h.lines, HunkText(hunks[1..]));
      assert StrippedLines([HeaderText(h)]) == [HeaderText(h)];
      assert StrippedHunks(hunks)[1..] == StrippedHunks(hunks[1..]);
    }
  }

  lemma StrippedAdd(a: seq<string>, b: seq<string>)
    ensures StrippedLines(a + b) == StrippedLines(a) + StrippedLines(b)
  {
  }

  lemma SameHeader(h: Hunk)
    ensures HeaderText(StrippedHunk(h)) == HeaderText(h)
  {
  }

  lemma FileTextStripped(f: FilePatch)
    requires Parseable(f)
    ensures forall k | 0 <= k < |FileText(f)| :: OneLine(FileText(f)[k])
    ensures StrippedLines(FileText(f)) == FileText(StrippedFile(f))
  {
    hide ParseableHunk, PathText, Stripped, HunkText, StrippedHunks;
    assert OneLine("--- ") && OneLine("+++ ");
    hide OneLine;
    PathIsOneLine(f.oldPath, "a/", "--- ");
    PathIsOneLine(f.newPath, "b/", "+++ ");
    HunkTextStripped(f.hunks);
  }

  lemma {:induction false} FilesTextStripped(files: seq<FilePatch>)
    requires forall k | 0 <= k < |files| :: Parseable(files[k])
    ensures forall k | 0 <= k < |FilesText(files)| :: OneLine(FilesText(files)[k])
    ensures StrippedLines(FilesText(files)) == FilesText(StrippedFiles(files))
  {
    hide Parseable, OneLine, Stripped, FileText, StrippedFile;
    if files != [] {
      FileTextStripped(files[0]);
      FilesTextStripped(files[1..]);
      assert StrippedFiles(files)[1..] == StrippedFiles(files[1..]);
    }
  }

  /** What the text of well-formed patches parses to: the same patches, with one
      carriage return gone from each line that ends in one. */
  lemma PrintThenParseStrips(files: seq<FilePatch>)
    requires files != [] && forall k | 0 <= k < |files| :: Parseable(files[k])
    ensures Parsed(Formatted(files)) == Ok(StrippedFiles(files))
  {
    hide FilesText, Sections, Unlines, TextLines;
    FilesTextStripped(files);
    LinesOfUnlines(FilesText(files));
    forall k | 0 <= k < |files| ensures Parseable(StrippedFiles(files)[k]) {
      FileStaysParseable(files[k]);
    }
    hide Parseable;
    SectionsReadBack(StrippedFiles(files), 0);
  }
}
