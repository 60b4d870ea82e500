/** Reading diffs that were not printed here: the forms a header may take, and what an
    error points at. */
module PatchForms {
  import opened Base
  import opened Patches
  import opened PatchProofs
  import opened PatchText
  import opened PatchRoundTrip

  // ---------- numbers ----------

  predicate AllDigits(text: string) {
    forall k | 0 <= k < |text| :: '0' <= text[k] <= '9'
  }

  lemma {:induction false} DigitsExactly(text: string)
    ensures Digits(text).Some? <==> AllDigits(text)
    decreases |text|
  {
    if text != "" {
      DigitsExactly(text[..|text| - 1]);
    }
  }

  /** A number is one or more digits, perhaps after a plus, and has the value they write;
      zeros in front do not change it. */
  lemma NumberExactly(text: string, n: nat)
    ensures Number(text).Some? <==>
              if text != "" && text[0] == '+' then |text| > 1 && AllDigits(text[1..]) else text != "" && AllDigits(text)
    ensures Number(Decimal(n)) == Some(n) && Number("+" + Decimal(n)) == Some(n)
    ensures Number(text) == Some(n) && text[0] != '+' ==> Number("0" + text) == Some(n)
  {
    NumberOfDecimal(n);
    assert Digit(Decimal(n)[0]);
    assert ("+" + Decimal(n))[1..] == Decimal(n);
    DigitsExactly(text);
    if text != "" {
      DigitsExactly(text[1..]);
    }
    ZeroInFront(text);
  }

  lemma {:induction false} ZeroInFront(text: string)
    ensures Digits("0" + text) == Digits(text)
    decreases |text|
  {
    if text == "" {
      assert ("0" + text)[..0] == "";
    } else {
      assert ("0" + text)[..|text|] == "0" + text[..|text| - 1];
      ZeroInFront(text[..|text| - 1]);
    }
  }

  // ---------- hunk headers ----------

  /** One side's numbers as a header may have them, the count perhaps left out. */
  function RangeForm(sign: string, start: nat, count: Option<nat>): string {
    sign + Decimal(start) + if count.Some? then "," + Decimal(count.value) else ""
  }

  lemma RangeFormReads(sign: string, start: nat, count: Option<nat>)
    ensures Range(RangeForm(sign, start, count), sign) == Some((start, if count.Some? then count.value else 1))
  {
    NumberOfDecimal(start);
    NoneIn(Decimal(start), ',');
    if count.Some? {
      RangeOfText(start, count.value, sign);
      assert RangeForm(sign, start, count) == RangeText(sign, start, count.value);
    } else {
      assert RangeForm(sign, start, count)[|sign|..] == Decimal(start);
      NotFound(Decimal(start), ',');
    }
  }

  lemma RangeFormHasNo(sign: string, start: nat, count: Option<nat>, c: char)
    requires !Digit(c) && c != ',' && c !in sign
    ensures c !in RangeForm(sign, start, count)
  {
    NoneIn(Decimal(start), c);
    if count.Some? {
      NoneIn(Decimal(count.value), c);
    }
  }

  lemma {:induction false} FindFirst(head: string, tail: string)
    requires '@' !in head
    ensures Find(head + " @@" + tail, " @@") == Some(|head|)
  {
    var text := head + " @@" + tail;
    if head == "" {
      assert text[..3] == " @@";
    } else {
      assert text[0] == head[0] && text[1..] == head[1..] + " @@" + tail;
      assert |head| > 1 ==> text[1] == head[1];
      assert text[1] != '@';
      FindFirst(head[1..], tail);
    }
  }

  lemma HeaderOfForms(was: string, now: string, tail: string)
    requires '@' !in was && '@' !in now && ' ' !in was && ' ' !in now
    requires Range(was, "-").Some? && Range(now, "+").Some?
    ensures HunkHeader("@@ " + (was + " " + now + " @@" + tail)) ==
            Some(Header(Range(was, "-").value.0, Range(was, "-").value.1,
                        Range(now, "+").value.0, Range(now, "+").value.1))
  {
    hide Range, Find;
    var ranges := was + " " + now;
    FindFirst(ranges, tail);
    assert ("@@ " + (ranges + " @@" + tail))[3..] == ranges + " @@" + tail;
    assert (ranges + " @@" + tail)[..|ranges|] == ranges;
    Cutting(was, ' ', now);
    NotFound(now, ' ');
  }

  /** A hunk header says its four numbers, whatever follows the second `@@`; a count that
      is left out is one. */
  lemma HeaderSays(oldStart: nat, oldLines: Option<nat>, newStart: nat, newLines: Option<nat>, tail: string)
    ensures HunkHeader("@@ " + (RangeForm("-", oldStart, oldLines) + " " + RangeForm("+", newStart, newLines)
                                + " @@" + tail))
         == Some(Header(oldStart, if oldLines.Some? then oldLines.value else 1,
                        newStart, if newLines.Some? then newLines.value else 1))
  {
    hide Range, HunkHeader;
    RangeFormReads("-", oldStart, oldLines);
    RangeFormReads("+", newStart, newLines);
    RangeFormHasNo("-", oldStart, oldLines, '@');
    RangeFormHasNo("+", newStart, newLines, '@');
    RangeFormHasNo("-", oldStart, oldLines, ' ');
    RangeFormHasNo("+", newStart, newLines, ' ');
    hide RangeForm;
    HeaderOfForms(RangeForm("-", oldStart, oldLines), RangeForm("+", newStart, newLines), tail);
  }

  // ---------- paths ----------

  lemma TrimOne(text: string, c: char)
    ensures Whitespace(c) ==> TrimEnd(text + [c]) == TrimEnd(text)
  {
    hide Whitespace;
    var all := text + [c];
    assert all[|all| - 1] == c && all[..|all| - 1] == text;
  }

  lemma TrimNone(text: string)
    requires text == "" || !Whitespace(text[|text| - 1])
    ensures TrimEnd(text) == text
  {
    hide Whitespace;
  }

  lemma {:induction false} TrimsBlank(text: string, blank: string)
    requires forall k | 0 <= k < |blank| :: Whitespace(blank[k])
    requires text == "" || !Whitespace(text[|text| - 1])
    ensures TrimEnd(text + blank) == text
  {
    hide Whitespace, TrimEnd;
    if blank == "" {
      assert text + blank == text;
      TrimNone(text);
    } else {
      var last := |blank| - 1;
      TrimsBlank(text, blank[..last]);
      TrimOne(text + blank[..last], blank[last]);
      assert text + blank == (text + blank[..last]) + [blank[last]];
    }
  }

  function StampText(stamp: Option<string>): string {
    if stamp.Some? then "\t" + stamp.value else ""
  }

  lemma NameIsTrimmed(name: string, blank: string, stamp: Option<string>)
    requires '\t' !in name && (name == "" || !Whitespace(name[|name| - 1]))
    requires '\t' !in blank && forall k | 0 <= k < |blank| :: Whitespace(blank[k])
    ensures TrimEnd(UpTo(name + blank + StampText(stamp), '\t')) == name
  {
    TrimsBlank(name, blank);
    hide TrimEnd, Whitespace;
    UpToStamp(name + blank, stamp);
  }

  lemma UpToStamp(named: string, stamp: Option<string>)
    requires '\t' !in named
    ensures UpTo(named + StampText(stamp), '\t') == named
  {
    if stamp.Some? {
      Cutting(named, '\t', stamp.value);
      Regroup(named, ['\t'], stamp.value);
    } else {
      assert named + "" == named;
      NotFound(named, '\t');
    }
  }

  /** A header line names its path with or without one of git's prefixes; blanks at the
      end, and a tab with whatever follows it, are not part of it. `/dev/null` is no path. */
  lemma PathSays(prefix: string, path: string, blank: string, stamp: Option<string>)
    requires prefix in {"", "a/", "b/"} && PrintablePath(path) && path != ""
    requires '\t' !in blank && forall k | 0 <= k < |blank| :: Whitespace(blank[k])
    ensures HeaderPath(prefix + path + blank + StampText(stamp)) ==
            if prefix + path == "/dev/null" then None
            else if prefix == "" && |path| >= 2 && path[..2] in {"a/", "b/"} then Some(path[2..])
            else Some(path)
  {
    var name := prefix + path;
    assert name[|name| - 1] == path[|path| - 1];
    NameIsTrimmed(name, blank, stamp);
    PathOfName(name + blank + StampText(stamp), name);
    hide StampText, HeaderPath, TrimEnd, UpTo;
    assert prefix == "" ==> name == path;
    assert prefix != "" ==> name[..2] == prefix && name[2..] == path;
  }

  lemma PathOfName(raw: string, name: string)
    requires TrimEnd(UpTo(raw, '\t')) == name
    ensures HeaderPath(raw) ==
            if name == "/dev/null" then None
            else if |name| >= 2 && name[..2] in {"a/", "b/"} then Some(name[2..])
            else Some(name)
  {
    hide TrimEnd, UpTo;
    assert "a/" <= name <==> |name| >= 2 && name[..2] == "a/";
    assert "b/" <= name <==> |name| >= 2 && name[..2] == "b/";
  }

  // ---------- git sections ----------

  /** The line is of a kind that is refused. */
  predicate Refuses(line: string, what: Refusal) {
    match what
    case Renames => "rename " <= line || "copy " <= line || "similarity index" <= line
    case ChangesMode => "old mode" <= line || "new mode" <= line
    case BinaryFile => "Binary files " <= line || line == "GIT binary patch"
    case NothingToApply => false
  }

  predicate InGitHeader(line: string) {
    !("--- " <= line) && !("diff --git " <= line)
  }

  lemma {:induction false} FirstRefusal(header: seq<string>) returns (k: nat)
    ensures match GitRefusal(header)
            case Some(what) =>
              && k < |header| && Refuses(header[k], what)
              && forall j, w | 0 <= j < k :: !Refuses(header[j], w)
            case None => forall j, w | 0 <= j < |header| :: !Refuses(header[j], w)
  {
    k := 0;
    if header != [] {
      var rest := FirstRefusal(header[1..]);
      if forall w :: !Refuses(header[0], w) {
        assert !Refuses(header[0], Renames) && !Refuses(header[0], ChangesMode) && !Refuses(header[0], BinaryFile);
        k := rest + 1;
        assert forall j | 1 <= j < |header| :: header[j] == header[1..][j - 1];
      } else {
        OneKind(header[0]);
      }
    }
  }

  /** Some line is refused, the first such line for this. */
  ghost predicate RefusedAs(header: seq<string>, what: Refusal) {
    exists k | 0 <= k < |header| ::
      Refuses(header[k], what) && forall j, w | 0 <= j < k :: !Refuses(header[j], w)
  }

  ghost predicate Refused(header: seq<string>) {
    exists k, what | 0 <= k < |header| :: Refuses(header[k], what)
  }

  lemma RefusedExactly(header: seq<string>)
    ensures GitRefusal(header).Some? <==> Refused(header)
    ensures GitRefusal(header).Some? ==> RefusedAs(header, GitRefusal(header).value)
    ensures GitRefusal(header) != Some(NothingToApply)
  {
    hide Refuses;
    var k := FirstRefusal(header);
    assert GitRefusal(header) != Some(NothingToApply) by {
      assert forall j | 0 <= j < |header| :: !Refuses(header[j], NothingToApply) by { NeverNothing(); }
    }
  }

  lemma NeverNothing()
    ensures forall line :: !Refuses(line, NothingToApply)
  {
  }

  lemma OneKind(line: string)
    ensures Refuses(line, Renames) ==> !Refuses(line, ChangesMode) && !Refuses(line, BinaryFile)
    ensures Refuses(line, ChangesMode) ==> !Refuses(line, BinaryFile)
  {
    if line != "" {
      assert Refuses(line, Renames) ==> line[0] in {'r', 'c', 's'};
      assert Refuses(line, ChangesMode) ==> line[0] in {'o', 'n'};
      assert Refuses(line, BinaryFile) ==> line[0] in {'B', 'G'};
    }
  }

  lemma {:induction false} GitHeaderIs(header: seq<string>, tail: seq<string>)
    requires forall k | 0 <= k < |header| :: InGitHeader(header[k])
    requires tail != [] ==> !InGitHeader(tail[0])
    ensures GitHeader(header + tail) == header
  {
    if header == [] {
      assert header + tail == tail;
    } else {
      assert InGitHeader(header[0]);
      assert (header + tail)[1..] == header[1..] + tail;
      GitHeaderIs(header[1..], tail);
      assert [header[0]] + header[1..] == header;
    }
  }

  predicate AnyStarts(header: seq<string>, start: string) {
    exists k | 0 <= k < |header| :: start <= header[k]
  }

  lemma MakesExactly(header: seq<string>)
    ensures AnyCreates(header) <==> AnyStarts(header, "new file mode")
    ensures AnyDeletes(header) <==> AnyStarts(header, "deleted file mode")
  {
  }

  /** What a git section says: its header runs to the next line that starts a file or a
      section. A line of a refused kind refuses it, the first one deciding; otherwise a
      file's lines may follow, or the header creates or deletes an empty file, or there is
      nothing to apply. */
  lemma GitSays(names: string, header: seq<string>, tail: seq<string>)
    requires forall k | 0 <= k < |header| :: InGitHeader(header[k])
    requires tail != [] ==> !InGitHeader(tail[0])
    ensures var r := GitSection(["diff --git " + names] + (header + tail));
            var creates, deletes := AnyStarts(header, "new file mode"), AnyStarts(header, "deleted file mode");
            var refused := Refused(header);
            && (r.Err? ==> r.error.Unsupported? && r.error.path == GitPath(names))
            && (refused <==> r.Err? && r.error.what != NothingToApply)
            && (refused ==> RefusedAs(header, r.error.what))
            && (!refused && tail != [] && "--- " <= tail[0] ==> r == Ok((None, tail)))
            && (!refused && (tail == [] || !("--- " <= tail[0])) ==>
                  r == if creates then Ok((Some(FilePatch(None, Some(GitPath(names)), [])), tail))
                       else if deletes then Ok((Some(FilePatch(Some(GitOldPath(names)), None, [])), tail))
                       else Err(Unsupported(GitPath(names), NothingToApply)))
  {
    var rest := ["diff --git " + names] + (header + tail);
    assert rest[1..] == header + tail && rest[0][11..] == names;
    GitHeaderIs(header, tail);
    assert rest[1 + |header|..] == tail;
    RefusedExactly(header);
    MakesExactly(header);
    hide GitPath, GitOldPath, GitRefusal, Refuses, GitHeader, Refused, RefusedAs, InGitHeader;
    hide AnyCreates, AnyDeletes, AnyStarts;
    assert tail == [] || InGitHeader(tail[0]) || "--- " <= tail[0] || "diff --git " <= tail[0];
  }

  lemma {:induction false} FindLastIs(head: string, part: string, tail: string)
    requires part != "" && FindLast((part + tail)[1..], part).None?
    ensures FindLast(head + part + tail, part) == Some(|head|)
  {
    var text := head + part + tail;
    if head == "" {
      assert text == part + tail && text[..|part|] == part;
    } else {
      assert text[1..] == head[1..] + part + tail;
      FindLastIs(head[1..], part, tail);
    }
  }

  lemma {:induction false} NotLast(text: string, part: string)
    requires part != "" && part[0] !in text
    ensures FindLast(text, part).None?
  {
    if text != "" {
      NotLast(text[1..], part);
    }
  }

  lemma {:induction false} FindIs(head: string, part: string, tail: string)
    requires part != "" && part[0] !in head
    ensures Find(head + part + tail, part) == Some(|head|)
  {
    var text := head + part + tail;
    if head == "" {
      assert text[..|part|] == part;
    } else {
      assert text[0] == head[0] && text[1..] == head[1..] + part + tail;
      FindIs(head[1..], part, tail);
    }
  }

  /** A git line names the old path after `a/` and the new one after the last ` b/`. */
  lemma GitNames(was: string, now: string)
    requires ' ' !in was && ' ' !in now
    ensures GitPath("a/" + was + " b/" + now) == now && GitOldPath("a/" + was + " b/" + now) == was
  {
    GitNewName(was, now);
    GitOldName(was, now);
  }

  lemma GitNewName(was: string, now: string)
    requires ' ' !in now
    ensures GitPath("a/" + was + " b/" + now) == now
  {
    var first := "a/" + was;
    NotLast("b/" + now, " b/");
    assert (" b/" + now)[1..] == "b/" + now;
    FindLastIs(first, " b/", now);
    hide FindLast;
    assert (first + " b/" + now)[|first| + 3..] == now;
  }

  lemma GitOldName(was: string, now: string)
    requires ' ' !in was
    ensures GitOldPath("a/" + was + " b/" + now) == was
  {
    FindIs(was, " b/", now);
    hide Find, FindLast;
    var rest := was + " b/" + now;
    assert "a/" + was + " b/" + now == "a/" + rest;
    assert ("a/" + rest)[2..] == rest && "a/" <= "a/" + rest;
    assert rest[..|was|] == was;
  }

  // ---------- sections ----------

  /** The line says nothing about files. */
  predicate Prose(line: string) {
    && !("Binary files " <= line) && line != "GIT binary patch"
    && !("diff --git " <= line) && !("--- " <= line)
  }

  /** Lines that say nothing about files are skipped. */
  lemma {:induction false} ProseIsSkipped(prose: seq<string>, rest: seq<string>, at: nat)
    requires forall k | 0 <= k < |prose| :: Prose(prose[k])
    ensures Sections(prose + rest, at) == Sections(rest, at + |prose|)
    decreases |prose|
  {
    hide FileSection, GitSection, TrimStart;
    if prose == [] {
      assert prose + rest == rest;
    } else {
      assert (prose + rest)[0] == prose[0] && (prose + rest)[1..] == prose[1..] + rest;
      assert Prose(prose[0]);
      ProseIsSkipped(prose[1..], rest, at + 1);
    }
  }

  /** A file outside git's sections that is binary is refused by its name. */
  lemma BinaryIsRefused(name: string, rest: seq<string>, at: nat)
    requires !("Binary files " <= name)
    ensures Sections(["Binary files " + name] + rest, at) == Err(Unsupported(name, BinaryFile))
    ensures Sections(["GIT binary patch"] + rest, at) == Err(Unsupported("GIT binary patch", BinaryFile))
  {
    var prefix, line := "Binary files ", "Binary files " + name;
    assert line[..|prefix|] == prefix && line[|prefix|..] == name;
    var all := [line] + rest;
    assert all[0] == line && Binary(line);
    assert TrimStart(line, prefix) == TrimStart(name, prefix) == name;
    hide GitSection, FileSection;
    var git := ["GIT binary patch"] + rest;
    assert git[0] == "GIT binary patch" && git[0][0] != prefix[0];
    assert TrimStart(git[0], prefix) == git[0];
  }

  // ---------- the body of a hunk ----------

  predicate OfHunk(line: string) {
    line == "" || line[0] in {' ', '-', '+', '\\'}
  }

  predicate OfSide(line: string, sign: char) {
    line == "" || line[0] in {' ', sign}
  }

  /** How many lines from `from` to `to` are on the side of `sign`. */
  ghost function Side(all: seq<string>, from: nat, to: nat, sign: char): nat
    requires from <= to <= |all|
  {
    if from == to then 0 else Side(all, from, to - 1, sign) + if OfSide(all[to - 1], sign) then 1 else 0
  }

  lemma SideGrows(all: seq<string>, from: nat, to: nat, sign: char)
    requires from <= to < |all|
    ensures Side(all, from, to + 1, sign) == Side(all, from, to, sign) + if OfSide(all[to], sign) then 1 else 0
  {
  }

  predicate Marker(line: string) {
    line == "\\ No newline at end of file"
  }

  /** The hunk that started at `from` wants line `at`: it lacks lines of a side, or the
      line marks the one before. */
  ghost predicate Wants(all: seq<string>, from: nat, at: nat, h: Header)
    requires from <= at <= |all|
  {
    at < |all| && (Side(all, from, at, '-') < h.oldLines || Side(all, from, at, '+') < h.newLines || Marker(all[at]))
  }

  ghost predicate Full(all: seq<string>, from: nat, at: nat, h: Header)
    requires from <= at <= |all|
  {
    Side(all, from, at, '-') == h.oldLines && Side(all, from, at, '+') == h.newLines
  }

  /** The body of a hunk from `from` to `end`: the lines it wanted and no more, an empty
      one standing for a kept empty line. */
  ghost predicate IsBody(all: seq<string>, from: nat, end: nat, h: Header, at: nat, lines: seq<string>)
    requires from <= at <= |all|
  {
    && at <= end <= |all|
    && |lines| == end - at
    && (forall k | at <= k < end :: OfHunk(all[k]) && Wants(all, from, k, h)
                                    && lines[k - at] == if all[k] == "" then " " else all[k])
    && !Wants(all, from, end, h)
    && Full(all, from, end, h)
  }

  /** What is wrong with the body: a line that is none of a hunk's, or the counts when
      nothing more is wanted. */
  ghost predicate BodyWrong(all: seq<string>, from: nat, h: Header, at: nat, e: ParseError)
    requires from <= at <= |all|
  {
    && e.ParseError? && at < e.line <= |all| + 1
    && (forall k | at <= k < e.line - 1 :: OfHunk(all[k]) && Wants(all, from, k, h))
    && (match e.reason
        case BadHunkLine => Wants(all, from, e.line - 1, h) && !OfHunk(all[e.line - 1])
        case ShortHunk => !Wants(all, from, e.line - 1, h) && !Full(all, from, e.line - 1, h)
        case _ => false)
  }

  lemma BodyStarts(all: seq<string>, from: nat, at: nat, h: Header)
    requires from <= at <= |all|
    ensures var r := Body(all[at..], at, h, Side(all, from, at, '-'), Side(all, from, at, '+'));
            if !Wants(all, from, at, h) then
              r == if Full(all, from, at, h) then Ok(([], all[at..])) else Err(ParseError(at + 1, ShortHunk))
            else if !OfHunk(all[at]) then r == Err(ParseError(at + 1, BadHunkLine))
            else
              var more := Body(all[at + 1..], at + 1, h, Side(all, from, at + 1, '-'), Side(all, from, at + 1, '+'));
              r == if more.Err? then more
                   else Ok(([if all[at] == "" then " " else all[at]] + more.value.0, more.value.1))
  {
    hide Side;
    if at < |all| {
      SideGrows(all, from, at, '-');
      SideGrows(all, from, at, '+');
      assert all[at..][1..] == all[at + 1..];
    }
  }

  lemma OneMoreLine(all: seq<string>, from: nat, end: nat, h: Header, at: nat, lines: seq<string>)
    requires from <= at < |all| && Wants(all, from, at, h) && OfHunk(all[at])
    requires IsBody(all, from, end, h, at + 1, lines)
    ensures IsBody(all, from, end, h, at, [if all[at] == "" then " " else all[at]] + lines)
  {
    hide Wants, Full, OfHunk;
    var more := [if all[at] == "" then " " else all[at]] + lines;
    forall k | at <= k < end
      ensures OfHunk(all[k]) && Wants(all, from, k, h) && more[k - at] == if all[k] == "" then " " else all[k]
    {
      assert k > at ==> more[k - at] == lines[k - (at + 1)];
    }
  }

  lemma WrongLater(all: seq<string>, from: nat, h: Header, at: nat, e: ParseError)
    requires from <= at < |all| && Wants(all, from, at, h) && OfHunk(all[at])
    requires BodyWrong(all, from, h, at + 1, e)
    ensures BodyWrong(all, from, h, at, e)
  {
    hide Wants, Full, OfHunk;
  }

  ghost predicate BodyRead(
    all: seq<string>, from: nat, at: nat, h: Header, r: Result<(seq<string>, seq<string>), ParseError>)
    requires from <= at <= |all|
  {
    match r
    case Ok((lines, rest)) => IsBody(all, from, at + |lines|, h, at, lines) && rest == all[at + |lines|..]
    case Err(e) => BodyWrong(all, from, h, at, e)
  }

  lemma BodyReadOn(
    all: seq<string>, from: nat, at: nat, h: Header, more: Result<(seq<string>, seq<string>), ParseError>)
    requires from <= at < |all| && Wants(all, from, at, h) && OfHunk(all[at])
    requires BodyRead(all, from, at + 1, h, more)
    ensures BodyRead(all, from, at, h,
                     if more.Err? then more
                     else Ok(([if all[at] == "" then " " else all[at]] + more.value.0, more.value.1)))
  {
    hide Side, Body, Full, OfHunk, Wants;
    if more.Ok? {
      OneMoreLine(all, from, at + 1 + |more.value.0|, h, at, more.value.0);
      hide IsBody;
    } else {
      WrongLater(all, from, h, at, more.error);
    }
  }

  /** Reading a hunk's body gives exactly its lines, or what is wrong and where. */
  lemma {:induction false} BodyExactly(all: seq<string>, from: nat, at: nat, h: Header)
    requires from <= at <= |all|
    ensures BodyRead(all, from, at, h, Body(all[at..], at, h, Side(all, from, at, '-'), Side(all, from, at, '+')))
    decreases |all| - at
  {
    BodyStarts(all, from, at, h);
    if Wants(all, from, at, h) && OfHunk(all[at]) {
      BodyExactly(all, from, at + 1, h);
      var more := Body(all[at + 1..], at + 1, h, Side(all, from, at + 1, '-'), Side(all, from, at + 1, '+'));
      hide Side, Body, Full, OfHunk, Wants, BodyRead;
      BodyReadOn(all, from, at, h, more);
    } else {
      hide Side, Body;
    }
  }

  // ---------- hunks ----------

  /** Lines `at` to `end` are this hunk: its header, then its body. */
  ghost predicate IsHunk(all: seq<string>, at: nat, end: nat, hunk: Hunk) {
    && at < |all|
    && HunkHeader(all[at]) == Some(Header(hunk.oldStart, hunk.oldLines, hunk.newStart, hunk.newLines))
    && IsBody(all, at + 1, end, HunkHeader(all[at]).value, at + 1, hunk.lines)
  }

  /** What is wrong with the hunk whose header is line `at`. */
  ghost predicate HunkWrong(all: seq<string>, at: nat, e: ParseError) {
    && at < |all| && "@@" <= all[at]
    && (if HunkHeader(all[at]).None? then e == ParseError(at + 1, MalformedHeader)
        else BodyWrong(all, at + 1, HunkHeader(all[at]).value, at + 1, e))
  }

  lemma HunkExactly(all: seq<string>, at: nat)
    requires at < |all| && "@@" <= all[at]
    ensures match OneHunk(all[at..], at)
            case Ok((hunk, rest)) =>
              && IsHunk(all, at, at + 1 + |hunk.lines|, hunk)
              && at + 1 + |hunk.lines| <= |all|
              && rest == all[at + 1 + |hunk.lines|..]
            case Err(e) => HunkWrong(all, at, e)
  {
    hide HunkHeader, Body, BodyWrong, Wants, Full, OfHunk;
    assert all[at..][1..] == all[at + 1..];
    var h := HunkHeader(all[at]);
    if h.Some? {
      BodyExactly(all, at + 1, at + 1, h.value);
    }
  }

  /** Lines `at` to `end` are these hunks, and no other starts there. */
  ghost predicate AreHunks(all: seq<string>, at: nat, end: nat, hunks: seq<Hunk>)
    decreases |hunks|
  {
    if hunks == [] then at == end <= |all| && (at < |all| ==> !("@@" <= all[at]))
    else
      var next := at + 1 + |hunks[0].lines|;
      at < |all| && "@@" <= all[at] && IsHunk(all, at, next, hunks[0]) && AreHunks(all, next, end, hunks[1..])
  }

  lemma {:induction false} HunksExactly(all: seq<string>, at: nat)
    requires at <= |all|
    ensures match Hunks(all[at..], at)
            case Ok((hunks, rest)) =>
              |rest| <= |all| && AreHunks(all, at, |all| - |rest|, hunks) && rest == all[|all| - |rest|..]
            case Err(e) => exists bad | at <= bad :: HunkWrong(all, bad, e)
    decreases |all| - at
  {
    hide OneHunk, IsHunk, HunkWrong;
    if at < |all| && "@@" <= all[at] {
      HunkExactly(all, at);
      var one := OneHunk(all[at..], at);
      if one.Ok? {
        var next := at + 1 + |one.value.0.lines|;
        HunksExactly(all, next);
        assert |all[at..]| - |one.value.1| == 1 + |one.value.0.lines|;
        var more := Hunks(all[next..], next);
        if more.Ok? {
          assert ([one.value.0] + more.value.0)[1..] == more.value.0;
        }
      }
    }
  }

  // ---------- files ----------

  /** Lines `at` to `end` are this file's: the two paths, then its hunks. */
  ghost predicate IsFile(all: seq<string>, at: nat, end: nat, patch: FilePatch) {
    && at + 1 < |all| && "--- " <= all[at] && "+++ " <= all[at + 1]
    && HeaderPath(all[at][4..]) == patch.oldPath && HeaderPath(all[at + 1][4..]) == patch.newPath
    && (patch.oldPath.Some? && patch.newPath.Some? ==> patch.oldPath == patch.newPath)
    && patch.hunks != [] && AreHunks(all, at + 2, end, patch.hunks)
  }

  /** What is wrong with the file whose old path is on line `at`. */
  ghost predicate FileWrong(all: seq<string>, at: nat, e: ParseError) {
    && at < |all| && "--- " <= all[at]
    && if at + 1 == |all| || !("+++ " <= all[at + 1]) then e == ParseError(at + 2, NoPlusLine)
       else
         var was, now := HeaderPath(all[at][4..]), HeaderPath(all[at + 1][4..]);
         if was.Some? && now.Some? && was != now then e == ParseError(at + 1, MovesFile(was.value, now.value))
         else if at + 2 == |all| || !("@@" <= all[at + 2]) then e == ParseError(at + 3, NoHunks)
         else exists bad | at + 2 <= bad :: HunkWrong(all, bad, e)
  }

  lemma FileExactly(all: seq<string>, at: nat)
    requires at < |all| && "--- " <= all[at]
    ensures match FileSection(all[at..], at)
            case Ok((patch, rest)) =>
              |rest| <= |all| && IsFile(all, at, |all| - |rest|, patch) && rest == all[|all| - |rest|..]
            case Err(e) => FileWrong(all, at, e)
  {
    hide HeaderPath, Hunks, IsHunk, HunkWrong;
    if at + 1 < |all| {
      assert all[at..][2..] == all[at + 2..];
      HunksExactly(all, at + 2);
      HunksStart(all[at + 2..], at + 2);
    }
  }

  lemma HunksStart(rest: seq<string>, at: nat)
    ensures rest == [] || !("@@" <= rest[0]) ==> Hunks(rest, at) == Ok(([], rest))
    ensures rest != [] && "@@" <= rest[0] && Hunks(rest, at).Ok? ==> Hunks(rest, at).value.0 != []
  {
    hide OneHunk;
  }

  // ---------- a whole diff ----------

  /** From line `at` on, the diff says these patches: prose is skipped, and each section
      of git's and each file says its own. */
  ghost predicate Says(all: seq<string>, at: nat, patches: seq<FilePatch>)
    decreases |all| - at
  {
    if at >= |all| then patches == []
    else if Prose(all[at]) then Says(all, at + 1, patches)
    else if "diff --git " <= all[at] then
      && GitSection(all[at..]).Ok?
      && var (patch, rest) := GitSection(all[at..]).value;
         && rest == all[|all| - |rest|..]
         && if patch.None? then Says(all, |all| - |rest|, patches)
            else patches != [] && patches[0] == patch.value && Says(all, |all| - |rest|, patches[1..])
    else exists end | at < end <= |all| ::
      patches != [] && IsFile(all, at, end, patches[0]) && Says(all, end, patches[1..])
  }

  /** What is wrong with the diff: a section of git's that is refused, a binary file
      outside one, or a file that is wrong. */
  ghost predicate Wrong(all: seq<string>, at: nat, e: ParseError)
    requires at < |all|
  {
    if "diff --git " <= all[at] then GitSection(all[at..]) == Err(e)
    else if "--- " <= all[at] then FileWrong(all, at, e)
    else !Prose(all[at]) && e.Unsupported? && e.what == BinaryFile
  }

  ghost predicate WrongFrom(all: seq<string>, at: nat, e: ParseError) {
    exists bad | at <= bad < |all| :: Wrong(all, bad, e)
  }

  lemma SectionsStart(all: seq<string>, at: nat)
    requires at < |all|
    ensures var r := Sections(all[at..], at);
            if Prose(all[at]) then r == Sections(all[at + 1..], at + 1)
            else if "diff --git " <= all[at] then
              match GitSection(all[at..])
              case Err(e) => r == Err(e)
              case Ok((patch, rest)) =>
                var more := Sections(rest, |all| - |rest|);
                r == if more.Err? || patch.None? then more else Ok([patch.value] + more.value)
            else if "--- " <= all[at] then
              match FileSection(all[at..], at)
              case Err(e) => r == Err(e)
              case Ok((patch, rest)) =>
                var more := Sections(rest, |all| - |rest|);
                r == if more.Err? then more else Ok([patch] + more.value)
            else r.Err? && r.error.Unsupported? && r.error.what == BinaryFile
  {
    hide GitSection, FileSection, TrimStart;
    assert all[at..][1..] == all[at + 1..];
    if "diff --git " <= all[at] || "--- " <= all[at] {
      NotBinary(all[at]);
    }
  }

  lemma {:induction false} SectionsExactly(all: seq<string>, at: nat)
    requires at <= |all|
    ensures match Sections(all[at..], at)
            case Ok(patches) => Says(all, at, patches)
            case Err(e) => WrongFrom(all, at, e)
    decreases |all| - at
  {
    hide GitSection, FileSection, IsFile, FileWrong;
    if at < |all| {
      SectionsStart(all, at);
      hide Sections;
      var r := Sections(all[at..], at);
      if Prose(all[at]) {
        SectionsExactly(all, at + 1);
      } else if "diff --git " <= all[at] {
        GitLeaves(all, at);
        if GitSection(all[at..]).Err? {
          assert Wrong(all, at, r.error);
        } else {
          var (patch, rest) := GitSection(all[at..]).value;
          var more := Sections(rest, |all| - |rest|);
          SectionsExactly(all, |all| - |rest|);
          assert r.Ok? && patch.Some? ==> r.value[1..] == more.value;
        }
      } else if "--- " <= all[at] {
        FileExactly(all, at);
        if FileSection(all[at..], at).Err? {
          assert Wrong(all, at, r.error);
        } else {
          var (patch, rest) := FileSection(all[at..], at).value;
          var more := Sections(rest, |all| - |rest|);
          SectionsExactly(all, |all| - |rest|);
          assert r.Ok? ==> r.value[1..] == more.value;
          assert IsFile(all, at, |all| - |rest|, patch) && |rest| < |all[at..]|;
        }
      } else {
        assert Wrong(all, at, r.error);
      }
    }
  }

  lemma NotBinary(line: string)
    requires "diff --git " <= line || "--- " <= line
    ensures !Binary(line)
  {
    assert line[0] in {'d', '-'};
  }

  lemma GitLeaves(all: seq<string>, at: nat)
    requires at < |all| && "diff --git " <= all[at]
    ensures GitSection(all[at..]).Ok? ==>
              var rest := GitSection(all[at..]).value.1; |rest| <= |all| && rest == all[|all| - |rest|..]
  {
    hide GitPath, GitOldPath, GitRefusal, AnyCreates, AnyDeletes, GitHeader;
    var n := 1 + |GitHeader(all[at..][1..])|;
    assert all[at..][n..] == all[at + n..];
  }

  /** Whatever text is parsed, the patches are what its lines say, and an error names what
      is wrong and the line it is wrong on; only a text that says nothing has no line. */
  lemma ParsesExactly(text: string)
    ensures match Parsed(text)
            case Ok(patches) => patches != [] && Says(Texts(Split(text)), 0, patches)
            case Err(e) =>
              || (e == ParseError(1, NoFileHeader) && Says(Texts(Split(text)), 0, []))
              || WrongFrom(Texts(Split(text)), 0, e)
  {
    hide Says, WrongFrom, Sections, Split;
    var lines := Texts(Split(text));
    assert lines[0..] == lines;
    SectionsExactly(lines, 0);
    var patches := Sections(lines, 0);
    if patches.Ok? && patches.value == [] {
      assert patches == Ok([]);
    }
  }

  // ---------- printing ----------

  /** A file's patch prints as its two paths, git's prefixes before them, and its hunks;
      each hunk as its four numbers and its lines as they are. */
  lemma PrintsAs(f: FilePatch, tail: seq<string>)
    ensures var all := FileText(f) + tail;
            && all[0] == "--- " + (if f.oldPath.Some? then "a/" + f.oldPath.value else "/dev/null")
            && all[1] == "+++ " + (if f.newPath.Some? then "b/" + f.newPath.value else "/dev/null")
            && PrintedHunks(f.hunks, all[2..], tail)
  {
    var all := FileText(f) + tail;
    assert all[2..] == HunkText(f.hunks) + tail;
    HunksPrintAs(f.hunks, tail);
  }

  ghost predicate PrintedHunks(hunks: seq<Hunk>, lines: seq<string>, tail: seq<string>) {
    if hunks == [] then lines == tail
    else
      var h := hunks[0];
      && |lines| > |h.lines|
      && lines[0] == "@@ -" + Decimal(h.oldStart) + "," + Decimal(h.oldLines)
                   + " +" + Decimal(h.newStart) + "," + Decimal(h.newLines) + " @@"
      && lines[1..|h.lines| + 1] == h.lines
      && PrintedHunks(hunks[1..], lines[|h.lines| + 1..], tail)
  }

  lemma PrintedHeader(h: Hunk)
    ensures HeaderText(h) == "@@ -" + Decimal(h.oldStart) + "," + Decimal(h.oldLines)
                           + " +" + Decimal(h.newStart) + "," + Decimal(h.newLines) + " @@"
  {
    hide Decimal;
    assert "@@ " + "-" == "@@ -" && " " + "+" == " +";
  }

  lemma {:induction false} HunksPrintAs(hunks: seq<Hunk>, tail: seq<string>)
    ensures PrintedHunks(hunks, HunkText(hunks) + tail, tail)
  {
    hide HeaderText, Decimal;
    if hunks == [] {
      assert HunkText(hunks) + tail == tail;
    } else {
      PrintedHeader(hunks[0]);
      var h, more := hunks[0], HunkText(hunks[1..]) + tail;
      HunksPrintAs(hunks[1..], tail);
      assert HunkText(hunks) + tail == [HeaderText(h)] + h.lines + more;
      assert (HunkText(hunks) + tail)[|h.lines| + 1..] == more;
    }
  }
}
