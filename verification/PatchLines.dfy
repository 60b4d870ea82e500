/** Lines keep apart: what the text of a patched file reads back as. */
module PatchLines {
  import opened Base
  import opened Patches
  import opened PatchProofs

  /** Closing gives an ending only to lines that another line follows, and
      leaves everything else alone. */
  lemma ClosingKeepsLines(lines: seq<Line>, usual: Ending, k: nat)
    requires k < |lines|
    ensures var now := Closed(lines, usual)[k];
            && now.text == lines[k].text
            && (now != lines[k] ==> lines[k].ending.None? && k + 1 < |lines| && now.ending == Some(usual))
            && (now.ending.None? ==> k + 1 == |lines|)
  {
  }

  /** A hunk whose lines stay lines: no line break inside one, no carriage
      return at an end, and no empty line left without an ending. */
  predicate Clean(lines: seq<string>) {
    forall k | 0 <= k < |lines| ::
      && '\n' !in lines[k]
      && !EndsIn(lines[k], '\r')
      && (k + 1 < |lines| && IsNoNewline(lines[k + 1]) ==> |lines[k]| > 1)
  }

  /** No line break in the text, nor half of one at its end; and a line
      without an ending is not empty. */
  predicate Fit(line: Line) {
    '\n' !in line.text && !EndsIn(line.text, '\r') && (line.ending.None? ==> line.text != "")
  }

  predicate AllFit(lines: seq<Line>) {
    forall k | 0 <= k < |lines| :: Fit(lines[k])
  }

  lemma NewLineFits(lines: seq<string>, region: seq<Line>, ending: Ending)
    requires lines != [] && Clean(lines) && AllFit(region) && |region| == |OldTexts(lines)|
    requires Marked(lines[0], ' ') ==> region != [] && region[0].text == lines[0][1..]
    ensures AllFit(NewLine(lines, region, ending))
  {
    hide OldTexts;
    assert lines[0] == lines[0];
  }

  lemma {:induction false} NewLinesFit(lines: seq<string>, region: seq<Line>, ending: Ending)
    requires Clean(lines) && AllFit(region) && Texts(region) == OldTexts(lines)
    ensures AllFit(NewLines(lines, region, ending))
  {
    hide Texts, OldTexts, NewLines;
    if lines != [] {
      TextsAfter(lines, region);
      assert Clean(lines[1..]) by {
        assert forall k | 1 <= k < |lines| :: lines[k] == lines[1..][k - 1];
      }
      NewLinesFirst(lines, region, ending);
      NewLineFits(lines, region, ending);
      assert AllFit(RegionLeft(lines, region));
      hide Clean, Fit, NewLine, RegionLeft;
      NewLinesFit(lines[1..], RegionLeft(lines, region), ending);
    } else {
      NoNewLines(region, ending);
    }
  }

  lemma OneHunkFit(before: seq<Line>, hunk: Hunk, shift: int, usual: Ending)
    requires AllFit(before) && Clean(hunk.lines) && PatchedOnce(before, hunk, shift, usual).Ok?
    ensures AllFit(PatchedOnce(before, hunk, shift, usual).value)
  {
    hide NewLines, RegionEnding, Clean, Fit;
    PlaceMatches(before, hunk, shift);
    var at := Place(before, hunk, shift).value;
    var region := before[at..at + |OldTexts(hunk.lines)|];
    assert Texts(region) == OldTexts(hunk.lines);
    NewLinesFit(hunk.lines, region, RegionEnding(region, Last(before[..at]), usual));
  }

  lemma {:induction false} StaysFit(original: seq<Line>, hunks: seq<Hunk>, usual: Ending, n: nat)
    requires n <= |hunks| && PatchedBy(original, hunks, usual, n).Ok?
    requires AllFit(original) && forall k | 0 <= k < |hunks| :: Clean(hunks[k].lines)
    ensures AllFit(PatchedBy(original, hunks, usual, n).value)
  {
    hide PatchedOnce, AllFit, Clean;
    if n > 0 {
      StaysFit(original, hunks, usual, n - 1);
      var before := PatchedBy(original, hunks, usual, n - 1).value;
      OneHunkFit(before, hunks[n - 1], |before| - |original|, usual);
    }
  }

  /** When neither the text nor the hunks hold a stray carriage return, the lines
      the hunks made are lines that splitting can yield. */
  lemma CleanLinesAreReadable(text: string, hunks: seq<Hunk>)
    requires PatchedBy(Split(text), hunks, UsualEnding(Split(text)), |hunks|).Ok?
    requires forall k | 0 <= k < |Split(text)| :: !EndsIn(Split(text)[k].text, '\r')
    requires forall k | 0 <= k < |hunks| :: Clean(hunks[k].lines)
    ensures var usual := UsualEnding(Split(text));
            AllReadable(Closed(PatchedBy(Split(text), hunks, usual, |hunks|).value, usual))
  {
    hide PatchedBy, Split, UsualEnding, EndsIn;
    var lines, usual := Split(text), UsualEnding(Split(text));
    JoinOfSplit(text);
    forall k | 0 <= k < |lines|
      ensures Fit(lines[k])
    {
      assert Readable(lines[k], k + 1 == |lines|);
    }
    StaysFit(lines, hunks, usual, |hunks|);
    var now := PatchedBy(lines, hunks, usual, |hunks|).value;
    forall k | 0 <= k < |now|
      ensures Readable(Closed(now, usual)[k], k + 1 == |now|)
    {
      assert Fit(now[k]);
    }
  }

  /** No line break inside any line. */
  predicate Unbroken(lines: seq<Line>) {
    forall k | 0 <= k < |lines| :: '\n' !in lines[k].text
  }

  /** No line break inside any line of the hunk. */
  predicate HunkUnbroken(lines: seq<string>) {
    forall k | 0 <= k < |lines| :: '\n' !in lines[k]
  }

  lemma {:induction false} NewLinesUnbroken(lines: seq<string>, region: seq<Line>, ending: Ending)
    requires HunkUnbroken(lines) && Unbroken(region) && |region| == |OldTexts(lines)|
    ensures Unbroken(NewLines(lines, region, ending))
  {
    hide OldTexts, NewLines;
    if lines != [] {
      NewLinesFirst(lines, region, ending);
      assert Unbroken(NewLine(lines, region, ending));
      assert Unbroken(RegionLeft(lines, region));
      hide NewLine, RegionLeft;
      NewLinesUnbroken(lines[1..], RegionLeft(lines, region), ending);
    } else {
      NoNewLines(region, ending);
    }
  }

  lemma {:induction false} StaysUnbroken(original: seq<Line>, hunks: seq<Hunk>, usual: Ending, n: nat)
    requires n <= |hunks| && PatchedBy(original, hunks, usual, n).Ok?
    requires Unbroken(original) && forall k | 0 <= k < |hunks| :: HunkUnbroken(hunks[k].lines)
    ensures Unbroken(PatchedBy(original, hunks, usual, n).value)
  {
    hide PatchedOnce, Unbroken, HunkUnbroken;
    if n > 0 {
      StaysUnbroken(original, hunks, usual, n - 1);
      var before := PatchedBy(original, hunks, usual, n - 1).value;
      OneHunkUnbroken(before, hunks[n - 1], |before| - |original|, usual);
    }
  }

  lemma OneHunkUnbroken(before: seq<Line>, hunk: Hunk, shift: int, usual: Ending)
    requires Unbroken(before) && HunkUnbroken(hunk.lines) && PatchedOnce(before, hunk, shift, usual).Ok?
    ensures Unbroken(PatchedOnce(before, hunk, shift, usual).value)
  {
    hide NewLines, RegionEnding, HunkUnbroken, MatchesAt;
    PlaceMatches(before, hunk, shift);
    var at := Place(before, hunk, shift).value;
    assert at + |OldTexts(hunk.lines)| <= |before| by { MatchEnds(before, OldTexts(hunk.lines), at); }
    var region := before[at..at + |OldTexts(hunk.lines)|];
    NewLinesUnbroken(hunk.lines, region, RegionEnding(region, Last(before[..at]), usual));
  }

  lemma MatchEnds(lines: seq<Line>, texts: seq<string>, at: nat)
    requires MatchesAt(lines, texts, at)
    ensures at + |texts| <= |lines|
  {
  }

  /** Each line with its ending, as text. */
  function Wholes(lines: seq<Line>): (r: seq<string>)
    ensures |r| == |lines| && forall k | 0 <= k < |lines| :: r[k] == lines[k].Text()
  {
    seq(|lines|, k requires 0 <= k < |lines| => lines[k].Text())
  }

  /** The text ends in an empty line without an ending, which adds nothing to it. */
  predicate EndsInNothing(lines: seq<Line>) {
    lines != [] && lines[|lines| - 1] == Line("", None)
  }

  /** Every line but the last has an ending. */
  predicate AllEnded(lines: seq<Line>) {
    forall k | 0 <= k < |lines| - 1 :: lines[k].ending.Some?
  }

  lemma CutOfWhole(line: Line, rest: string)
    requires '\n' !in line.text && (line.ending.Some? || (line.text != "" && rest == ""))
    ensures line.Text() + rest != ""
    ensures Cut(line.Text() + rest).0.Text() == line.Text() && Cut(line.Text() + rest).1 == rest
  {
    hide Cut;
    var text := line.Text() + rest;
    if line.ending.Some? {
      var head := line.text + if line.ending.value.CrLf? then "\r" else "";
      assert line.Text() == head + "\n";
      assert text == head + ['\n'] + rest;
      FirstAt(head, '\n', rest);
      assert text[..|head|] == head && text[|head| + 1..] == rest;
      CutAtBreak(text, |head|);
      assert Ended(head).Text() == head + "\n" by { EndedText(head); }
    } else {
      assert text == line.text;
      NoBreak(text);
    }
  }

  lemma CutAtBreak(text: string, at: nat)
    requires text != "" && IndexOf(text, '\n') == Some(at)
    ensures at < |text| && Cut(text) == (Ended(text[..at]), text[at + 1..])
  {
  }

  lemma NoBreak(text: string)
    requires text != "" && '\n' !in text
    ensures Cut(text) == (Line(text, None), "")
  {
    var at := IndexOf(text, '\n');
    assert at.None?;
  }

  lemma EndedText(head: string)
    ensures Ended(head).Text() == head + "\n"
  {
    if EndsIn(head, '\r') {
      assert head == head[..|head| - 1] + "\r";
    }
  }

  /** The lines without an empty one, without an ending, at the end. */
  function Lasting(lines: seq<Line>): seq<Line> {
    if EndsInNothing(lines) then lines[..|lines| - 1] else lines
  }

  lemma LastingFirst(lines: seq<Line>)
    requires lines != [] && lines != [Line("", None)]
    ensures Lasting(lines) == [lines[0]] + Lasting(lines[1..])
  {
    if |lines| == 1 {
      assert lines == [lines[0]] && lines[1..] == [];
    } else {
      assert lines[1..][|lines| - 2] == lines[|lines| - 1];
      assert lines == [lines[0]] + lines[1..];
    }
  }

  lemma WholesFirst(line: Line, lines: seq<Line>)
    ensures Wholes([line] + lines) == [line.Text()] + Wholes(lines)
  {
  }

  lemma SplitFirst(line: Line, rest: string)
    requires '\n' !in line.text && (line.ending.Some? || (line.text != "" && rest == ""))
    ensures Wholes(Split(line.Text() + rest)) == [line.Text()] + Wholes(Split(rest))
  {
    hide Cut;
    CutOfWhole(line, rest);
    var text := line.Text() + rest;
    WholesFirst(Cut(text).0, Split(rest));
  }

  /** Joined lines split again where they were joined: only an empty line without
      an ending, at the end, is lost. */
  lemma {:induction false} SplitKeepsWholes(lines: seq<Line>)
    requires Unbroken(lines) && AllEnded(lines)
    ensures Wholes(Split(Join(lines))) == Wholes(Lasting(lines))
    decreases |lines|
  {
    hide Split, Wholes, Lasting;
    if lines == [] {
      assert Split(Join(lines)) == [] && Lasting(lines) == [] by { NoLines(); }
    } else if lines == [Line("", None)] {
      assert Split(Join(lines)) == [] && Lasting(lines) == [] by { NoLines(); }
    } else {
      var rest := lines[1..];
      assert Join(lines) == lines[0].Text() + Join(rest);
      assert rest == [] ==> Join(rest) == "";
      assert |lines| == 1 ==> lines == [lines[0]];
      hide Join;
      SplitKeepsWholes(rest);
      SplitFirst(lines[0], Join(rest));
      LastingFirst(lines);
      WholesFirst(lines[0], Lasting(rest));
    }
  }

  lemma NoLines()
    ensures Split(Join([])) == [] && Lasting([]) == []
    ensures Split(Join([Line("", None)])) == [] && Lasting([Line("", None)]) == []
  {
    assert [Line("", None)][1..] == [];
    assert Join([Line("", None)]) == "";
  }

  /** For every text, and hunks without a line break inside a line: split again,
      the patched text has as many lines as the hunks left, and the same ones with
      their endings, exactly when they do not end in an empty line without an
      ending. They are the same, line and ending apart, exactly when each is a line
      that splitting can yield. */
  lemma LinesNeverMerge(text: string, patch: FilePatch)
    requires Applied(text, patch).Ok?
    requires forall k | 0 <= k < |patch.hunks| :: HunkUnbroken(patch.hunks[k].lines)
    ensures var usual := UsualEnding(Split(text));
            var now := Closed(PatchedBy(Split(text), patch.hunks, usual, |patch.hunks|).value, usual);
            var lines := Split(Applied(text, patch).value);
            && (|lines| == |now| <==> !EndsInNothing(now))
            && (Wholes(lines) == Wholes(now) <==> !EndsInNothing(now))
            && Wholes(lines) == Wholes(Lasting(now))
            && (lines == now <==> AllReadable(now))
  {
    hide PatchedOnce, HunkUnbroken, Split, Join, AllReadable;
    var lines, usual := Split(text), UsualEnding(Split(text));
    var made := PatchedBy(lines, patch.hunks, usual, |patch.hunks|).value;
    var now := Closed(made, usual);
    SplitIsUnbroken(text);
    StaysUnbroken(lines, patch.hunks, usual, |patch.hunks|);
    forall k | 0 <= k < |now|
      ensures '\n' !in now[k].text && (k < |now| - 1 ==> now[k].ending.Some?)
    {
      ClosingKeepsLines(made, usual, k);
    }
    SplitKeepsWholes(now);
    SplitOfJoinExactly(now);
  }

  /** A hunk that adds an empty line without an ending to an empty file. */
  const LOST_LINE := Hunk(0, 0, 1, 1, ["+", NO_NEWLINE])

  /** The line it adds is lost: the hunk leaves one line and the text has none. */
  lemma EmptyLastLineIsLost()
    ensures var patch := FilePatch(Some("a"), Some("a"), [LOST_LINE]);
            && PatchedBy(Split(""), patch.hunks, Lf, 1) == Ok([Line("", None)])
            && Applied("", patch) == Ok("")
            && Split("") == []
  {
    hide PatchedOnce;
    LostLineLands();
    var hunks := [LOST_LINE];
    assert PatchedBy([], hunks, Lf, 0) == Ok([]);
    assert PatchedBy([], hunks, Lf, 1) == Ok([Line("", None)]);
    assert Closed([Line("", None)], Lf) == [Line("", None)];
    assert UsualEnding([]) == Lf;
    hide PatchedBy, Closed, UsualEnding;
    NoLines();
    assert Join([Line("", None)]) == "" by { assert [Line("", None)][1..] == []; }
  }

  lemma LostLineLands()
    ensures PatchedOnce([], LOST_LINE, 0, Lf) == Ok([Line("", None)])
  {
    LostLineTexts();
    hide OldTexts, NewTexts, NewLines;
    assert MatchesAt([], [], 0);
    assert Place([], LOST_LINE, 0) == Ok(0);
    var ending := RegionEnding([], Last([]), Lf);
    assert NewLines(LOST_LINE.lines, [], ending) == [Line("", None)];
    assert [][..0] + [Line("", None)] + [][0..] == [Line("", None)];
  }

  lemma LostLineTexts()
    ensures OldTexts(LOST_LINE.lines) == []
    ensures forall ending :: NewLines(LOST_LINE.lines, [], ending) == [Line("", None)]
  {
    var lines := LOST_LINE.lines;
    assert lines[1..] == [NO_NEWLINE] && [NO_NEWLINE][1..] == [];
    assert Marked(lines[0], '+') && lines[0][1..] == "";
    assert NO_NEWLINE[0] == '\\';
    NotOld([NO_NEWLINE]);
    NotOld(lines);
    forall ending ensures NewLines(lines, [], ending) == [Line("", None)] {
      assert NewLines([NO_NEWLINE], [], ending) == NewLine([NO_NEWLINE], [], ending) + NewLines([], [], ending);
      assert NewLine(lines, [], ending) == [Line("", None)];
    }
  }

  lemma NotOld(lines: seq<string>)
    requires lines != [] && !Marked(lines[0], ' ') && !Marked(lines[0], '-')
    ensures OldTexts(lines) == OldTexts(lines[1..])
  {
    assert [] + OldTexts(lines[1..]) == OldTexts(lines[1..]);
  }

  /** No empty line stands before a marker. */
  predicate MarksText(lines: seq<string>) {
    forall k | 0 <= k < |lines| - 1 && IsNoNewline(lines[k + 1]) :: |lines[k]| > 1
  }

  /** A line without an ending has text. */
  predicate Texted(lines: seq<Line>) {
    forall k | 0 <= k < |lines| && lines[k].ending.None? :: lines[k].text != ""
  }

  lemma NewLineTexted(lines: seq<string>, region: seq<Line>, ending: Ending)
    requires lines != [] && MarksText(lines) && Texted(region) && |region| == |OldTexts(lines)|
    requires Marked(lines[0], ' ') ==> region != [] && region[0].text == lines[0][1..]
    ensures Texted(NewLine(lines, region, ending))
  {
    hide OldTexts, IsNoNewline;
    if |lines| > 1 && IsNoNewline(lines[1]) {
      var k := 0;
      assert |lines[k]| > 1 by { assert IsNoNewline(lines[k + 1]); }
    }
  }

  lemma {:induction false} NewLinesTexted(lines: seq<string>, region: seq<Line>, ending: Ending)
    requires MarksText(lines) && Texted(region) && Texts(region) == OldTexts(lines)
    ensures Texted(NewLines(lines, region, ending))
  {
    hide Texts, OldTexts, NewLines;
    if lines != [] {
      TextsAfter(lines, region);
      assert MarksText(lines[1..]) by {
        assert forall k | 1 <= k < |lines| :: lines[k] == lines[1..][k - 1];
      }
      NewLinesFirst(lines, region, ending);
      NewLineTexted(lines, region, ending);
      assert Texted(RegionLeft(lines, region));
      hide MarksText, NewLine, RegionLeft;
      NewLinesTexted(lines[1..], RegionLeft(lines, region), ending);
    } else {
      NoNewLines(region, ending);
    }
  }

  lemma OneHunkTexted(before: seq<Line>, hunk: Hunk, shift: int, usual: Ending)
    requires Texted(before) && MarksText(hunk.lines) && PatchedOnce(before, hunk, shift, usual).Ok?
    ensures Texted(PatchedOnce(before, hunk, shift, usual).value)
  {
    hide NewLines, RegionEnding, MarksText;
    PlaceMatches(before, hunk, shift);
    var at := Place(before, hunk, shift).value;
    var region := before[at..at + |OldTexts(hunk.lines)|];
    assert Texts(region) == OldTexts(hunk.lines);
    NewLinesTexted(hunk.lines, region, RegionEnding(region, Last(before[..at]), usual));
  }

  lemma {:induction false} StaysTexted(original: seq<Line>, hunks: seq<Hunk>, usual: Ending, n: nat)
    requires n <= |hunks| && PatchedBy(original, hunks, usual, n).Ok?
    requires Texted(original) && forall k | 0 <= k < |hunks| :: MarksText(hunks[k].lines)
    ensures Texted(PatchedBy(original, hunks, usual, n).value)
  {
    hide PatchedOnce, Texted, MarksText;
    if n > 0 {
      StaysTexted(original, hunks, usual, n - 1);
      var before := PatchedBy(original, hunks, usual, n - 1).value;
      OneHunkTexted(before, hunks[n - 1], |before| - |original|, usual);
    }
  }

  lemma SplitIsTexted(text: string)
    ensures Texted(Split(text))
  {
    JoinOfSplit(text);
    forall k | 0 <= k < |Split(text)| && Split(text)[k].ending.None?
      ensures Split(text)[k].text != ""
    {
      assert Readable(Split(text)[k], k + 1 == |Split(text)|);
    }
  }

  lemma ClosedEnd(lines: seq<Line>, usual: Ending)
    ensures EndsInNothing(Closed(lines, usual)) <==> EndsInNothing(lines)
  {
  }

  /** When no hunk has an empty line before a marker, no line is lost, whatever the
      text and wherever the hunks land. */
  lemma MarkedTextIsKept(text: string, patch: FilePatch)
    requires Applied(text, patch).Ok?
    requires forall k | 0 <= k < |patch.hunks| :: HunkUnbroken(patch.hunks[k].lines) && MarksText(patch.hunks[k].lines)
    ensures var usual := UsualEnding(Split(text));
            var now := Closed(PatchedBy(Split(text), patch.hunks, usual, |patch.hunks|).value, usual);
            var lines := Split(Applied(text, patch).value);
            !EndsInNothing(now) && |lines| == |now| && Wholes(lines) == Wholes(now)
  {
    hide PatchedOnce, HunkUnbroken, MarksText, Split, Join, AllReadable;
    var lines, usual := Split(text), UsualEnding(Split(text));
    SplitIsTexted(text);
    StaysTexted(lines, patch.hunks, usual, |patch.hunks|);
    ClosedEnd(PatchedBy(lines, patch.hunks, usual, |patch.hunks|).value, usual);
    LinesNeverMerge(text, patch);
  }

  // ---------- exactly when an accurate patch loses its last line ----------

  /** The last line the hunk leaves is empty and stands before a marker. */
  predicate LeavesNothing(lines: seq<string>) {
    lines != [] &&
    if NewTexts(lines[1..]) != [] then LeavesNothing(lines[1..])
    else (Marked(lines[0], ' ') || Marked(lines[0], '+')) && |lines[0]| == 1 && |lines| > 1 && IsNoNewline(lines[1])
  }

  lemma {:induction false} LastNewLine(lines: seq<string>, region: seq<Line>, ending: Ending)
    requires Texted(region) && Texts(region) == OldTexts(lines) && NewTexts(lines) != []
    ensures EndsInNothing(NewLines(lines, region, ending)) <==> LeavesNothing(lines)
  {
    hide Texts, OldTexts, IsNoNewline;
    TextsAfter(lines, region);
    NewLinesFirst(lines, region, ending);
    var first, rest := NewLine(lines, region, ending), NewLines(lines[1..], RegionLeft(lines, region), ending);
    assert Texted(RegionLeft(lines, region));
    if NewTexts(lines[1..]) != [] {
      LastNewLine(lines[1..], RegionLeft(lines, region), ending);
      EndOfSum(first, rest);
    } else {
      assert rest == [] && first + rest == first;
    }
  }

  lemma EndOfSum(a: seq<Line>, b: seq<Line>)
    ensures EndsInNothing(a + b) <==> if b == [] then EndsInNothing(a) else EndsInNothing(b)
  {
    if b == [] {
      assert a + b == a;
    }
  }

  /** What a caller can see before the call, from the number of lines of the text and
      the hunks: the last hunk that leaves lines reaches the end, or only hunks that
      leave none do after it, and its last line is empty before a marker. `carry` says
      so of what stands before `from`. */
  predicate EndsEmpty(size: nat, hunks: seq<Hunk>, from: int, carry: bool) {
    if hunks == [] then carry && from >= size
    else
      var here := carry && from >= StartOf(hunks[0]);
      EndsEmpty(size, hunks[1..], StartOf(hunks[0]) + hunks[0].oldLines,
                if NewTexts(hunks[0].lines) == [] then here else LeavesNothing(hunks[0].lines))
  }

  lemma OriginalEnd(done: seq<Line>, original: seq<Line>, from: nat, to: nat)
    requires from <= to <= |original| && Texted(original)
    ensures EndsInNothing(done + original[from..to]) <==> EndsInNothing(done) && from == to
  {
    EndOfSum(done, original[from..to]);
    if from < to {
      assert original[from..to][to - from - 1] == original[to - 1];
    }
  }

  lemma FillEnd(done: seq<Line>, original: seq<Line>, hunk: Hunk, from: nat, before: Option<Line>, usual: Ending)
    requires Texted(original) && from <= StartOf(hunk) && hunk.oldLines == |OldTexts(hunk.lines)|
    requires MatchesAt(original, OldTexts(hunk.lines), StartOf(hunk))
    ensures EndsInNothing(done + Fill(original, hunk, from, before, usual)) <==>
            if NewTexts(hunk.lines) == [] then EndsInNothing(done) && from >= StartOf(hunk)
            else LeavesNothing(hunk.lines)
  {
    hide NewLines, RegionEnding, LeavesNothing, EndsInNothing;
    var at := StartOf(hunk);
    var gap, region := original[from..at], original[at..at + hunk.oldLines];
    var made := NewLines(hunk.lines, region, RegionEnding(region, LastOr(gap, before), usual));
    assert Texts(region) == OldTexts(hunk.lines);
    assert Texted(region);
    Regroup(done, gap, made);
    EndOfSum(done + gap, made);
    OriginalEnd(done, original, from, at);
    if NewTexts(hunk.lines) != [] {
      LastNewLine(hunk.lines, region, RegionEnding(region, LastOr(gap, before), usual));
    }
  }

  lemma {:induction false} AtOnceEnd(
    done: seq<Line>, original: seq<Line>, hunks: seq<Hunk>, from: nat, before: Option<Line>, usual: Ending)
    requires from <= |original| && Texted(original) && Accurate(original, hunks, from)
    ensures EndsInNothing(done + AtOnce(original, hunks, from, before, usual)) <==>
            EndsEmpty(|original|, hunks, from, EndsInNothing(done))
    decreases |hunks|
  {
    hide Fill, LastOr, NewTexts, LeavesNothing, EndsInNothing, TextsAtOnce;
    if hunks == [] {
      assert AtOnce(original, hunks, from, before, usual) == original[from..|original|];
      OriginalEnd(done, original, from, |original|);
    } else {
      hide AtOnce, Accurate, MatchesAt, OldTexts;
      AtOnceFirst(original, hunks, from, before, usual);
      var end := StartOf(hunks[0]) + hunks[0].oldLines;
      var fill := Fill(original, hunks[0], from, before, usual);
      FillEnd(done, original, hunks[0], from, before, usual);
      AtOnceEnd(done + fill, original, hunks[1..], end, LastOr(fill, before), usual);
      Regroup(done, fill, AtOnce(original, hunks[1..], end, LastOr(fill, before), usual));
    }
  }

  /** The text an accurate patch makes has all the lines the hunks leave, with their
      endings, exactly when the hunks do not end it in an empty line before a
      marker. */
  lemma AccurateKeepsLinesExactly(text: string, patch: FilePatch)
    requires Accurate(Split(text), patch.hunks, 0)
    requires forall k | 0 <= k < |patch.hunks| :: HunkUnbroken(patch.hunks[k].lines)
    ensures Applied(text, patch).Ok?
    ensures var usual := UsualEnding(Split(text));
            var now := Closed(AtOnce(Split(text), patch.hunks, 0, None, usual), usual);
            var lines := Split(Applied(text, patch).value);
            && (|lines| == |now| <==> !EndsEmpty(|Split(text)|, patch.hunks, 0, false))
            && (Wholes(lines) == Wholes(now) <==> !EndsEmpty(|Split(text)|, patch.hunks, 0, false))
  {
    hide PatchedOnce, Accurate, HunkUnbroken, Split, Join, AllReadable, AtOnce, TextsAtOnce, EndsEmpty;
    var lines, usual := Split(text), UsualEnding(Split(text));
    AccuratePatchApplies(text, patch);
    LinesNeverMerge(text, patch);
    var made := AtOnce(lines, patch.hunks, 0, None, usual);
    ClosedEnd(made, usual);
    SplitIsTexted(text);
    AtOnceEnd([], lines, patch.hunks, 0, None, usual);
    assert [] + made == made;
  }

  lemma SplitIsUnbroken(text: string)
    ensures Unbroken(Split(text))
  {
    JoinOfSplit(text);
  }

  /** An accurate patch applies to every text; its lines are the original's outside
      the hunks interleaved with each hunk's new lines; and reading the patched text
      back gives exactly these when each is a line that splitting can yield. */
  lemma AccuratePatchApplies(text: string, patch: FilePatch)
    requires Accurate(Split(text), patch.hunks, 0)
    ensures Applied(text, patch).Ok?
    ensures var usual := UsualEnding(Split(text));
            var now := Closed(AtOnce(Split(text), patch.hunks, 0, None, usual), usual);
            && PatchedBy(Split(text), patch.hunks, usual, |patch.hunks|)
                 == Ok(AtOnce(Split(text), patch.hunks, 0, None, usual))
            && Applied(text, patch).value == Join(now)
            && Texts(now) == TextsAtOnce(Split(text), patch.hunks, 0)
            && (Split(Applied(text, patch).value) == now <==> AllReadable(now))
  {
    hide PatchedOnce, Accurate, Split, Join, AllReadable;
    var lines, usual := Split(text), UsualEnding(Split(text));
    SequentialIsAtOnce(lines, patch.hunks, usual);
    AtOnceHasTexts(lines, patch.hunks, 0, None, usual);
    var made := AtOnce(lines, patch.hunks, 0, None, usual);
    hide AtOnce, TextsAtOnce;
    ClosedTexts(made, usual);
    SplitOfJoinExactly(Closed(made, usual));
  }

  lemma ClosedTexts(lines: seq<Line>, usual: Ending)
    ensures Texts(Closed(lines, usual)) == Texts(lines)
  {
  }

  /** Without stray carriage returns nothing else is needed. */
  lemma AccurateCleanPatchReadsBack(text: string, patch: FilePatch)
    requires Accurate(Split(text), patch.hunks, 0)
    requires forall k | 0 <= k < |Split(text)| :: !EndsIn(Split(text)[k].text, '\r')
    requires forall k | 0 <= k < |patch.hunks| :: Clean(patch.hunks[k].lines)
    ensures Applied(text, patch).Ok?
    ensures Texts(Split(Applied(text, patch).value)) == TextsAtOnce(Split(text), patch.hunks, 0)
  {
    hide PatchedOnce, Accurate, Clean, AllReadable, Split, Join, AtOnce, TextsAtOnce;
    AccuratePatchApplies(text, patch);
    CleanLinesAreReadable(text, patch.hunks);
  }
}
