/** What a patch leaves of each line, and the ending it gives to lines it adds. */
module PatchEndings {
  import opened Base
  import opened Patches
  import opened PatchProofs

  // ---------- the lines of a hunk ----------

  /** The first character of the line is `a` or `b`. */
  predicate Starts(line: string, a: char, b: char) {
    line != "" && (line[0] == a || line[0] == b)
  }

  /** How many lines, from number `from` on, start with `a` or `b`. */
  ghost function HowMany(lines: seq<string>, from: nat, a: char, b: char): nat {
    |set k | from <= k < |lines| && Starts(lines[k], a, b)|
  }

  lemma HowManyFirst(lines: seq<string>, from: nat, a: char, b: char)
    requires from < |lines|
    ensures HowMany(lines, from, a, b) == HowMany(lines, from + 1, a, b) + if Starts(lines[from], a, b) then 1 else 0
  {
    var rest := set k | from + 1 <= k < |lines| && Starts(lines[k], a, b);
    assert (set k | from <= k < |lines| && Starts(lines[k], a, b))
        == rest + if Starts(lines[from], a, b) then {from} else {};
  }

  /** A hunk expects as many lines as start with a space or a minus, and leaves as many
      as start with a space or a plus. */
  lemma {:induction false} TextsCounted(lines: seq<string>, from: nat)
    requires from <= |lines|
    ensures |OldTexts(lines[from..])| == HowMany(lines, from, ' ', '-')
    ensures |NewTexts(lines[from..])| == HowMany(lines, from, ' ', '+')
    decreases |lines| - from
  {
    if from < |lines| {
      HowManyFirst(lines, from, ' ', '-');
      HowManyFirst(lines, from, ' ', '+');
      TextsCounted(lines, from + 1);
      hide HowMany;
      assert lines[from..][1..] == lines[from + 1..];
    }
  }

  /** The texts of the lines up to `i`, by the first line and the rest. */
  lemma TextsUpTo(lines: seq<string>, i: nat)
    requires 0 < i <= |lines|
    ensures |OldTexts(lines[..i])|
         == |OldTexts(lines[1..][..i - 1])| + if Starts(lines[0], ' ', '-') then 1 else 0
    ensures |NewTexts(lines[..i])|
         == |NewTexts(lines[1..][..i - 1])| + if Starts(lines[0], ' ', '+') then 1 else 0
  {
    assert lines[..i][1..] == lines[1..][..i - 1];
  }

  /** These are the lines without that character, in order. */
  lemma {:induction false} TextsOf(lines: seq<string>, i: nat)
    requires i < |lines|
    ensures Starts(lines[i], ' ', '-') ==>
              && |OldTexts(lines[..i])| < |OldTexts(lines)|
              && OldTexts(lines)[|OldTexts(lines[..i])|] == lines[i][1..]
    ensures Starts(lines[i], ' ', '+') ==>
              && |NewTexts(lines[..i])| < |NewTexts(lines)|
              && NewTexts(lines)[|NewTexts(lines[..i])|] == lines[i][1..]
  {
    if i > 0 {
      TextsUpTo(lines, i);
      TextsOf(lines[1..], i - 1);
    } else {
      assert lines[..0] == [];
    }
  }

  // ---------- what each line of a hunk leaves ----------

  /** The next line says that this one has no newline. */
  predicate BeforeMarker(lines: seq<string>, i: nat) {
    i + 1 < |lines| && lines[i + 1] == "\\ No newline at end of file"
  }

  /** What line `i` of a hunk leaves: a line to keep stays as it is, and one to add gets
      the ending; before a marker, either has none. */
  predicate LeftAs(lines: seq<string>, i: nat, was: seq<Line>, ending: Ending, now: Line)
    requires i < |lines| && lines[i] != "" && |was| == |OldTexts(lines)|
  {
    if Starts(lines[i], ' ', ' ') then
      && |OldTexts(lines[..i])| < |was|
      && var kept := was[|OldTexts(lines[..i])|];
         now == Line(kept.text, if BeforeMarker(lines, i) then None else kept.ending)
    else now == Line(lines[i][1..], if BeforeMarker(lines, i) then None else Some(ending))
  }

  lemma {:induction false} NewLineAt(lines: seq<string>, region: seq<Line>, ending: Ending, i: nat)
    requires |region| == |OldTexts(lines)| && i < |lines| && Starts(lines[i], ' ', '+')
    ensures |NewTexts(lines[..i])| < |NewLines(lines, region, ending)|
    ensures LeftAs(lines, i, region, ending, NewLines(lines, region, ending)[|NewTexts(lines[..i])|])
  {
    TextsOf(lines, i);
    NewLinesFirst(lines, region, ending);
    hide NewLines;
    if i > 0 {
      TextsUpTo(lines, i);
      NewLineAt(lines[1..], RegionLeft(lines, region), ending, i - 1);
      LeftAsNext(lines, i, region, ending, NewLines(lines[1..], RegionLeft(lines, region), ending)
        [|NewTexts(lines[1..][..i - 1])|]);
      hide OldTexts, LeftAs;
    } else {
      assert lines[..0] == [];
    }
  }

  lemma LeftAsNext(lines: seq<string>, i: nat, region: seq<Line>, ending: Ending, now: Line)
    requires |region| == |OldTexts(lines)| && 0 < i < |lines| && lines[i] != ""
    requires LeftAs(lines[1..], i - 1, RegionLeft(lines, region), ending, now)
    ensures LeftAs(lines, i, region, ending, now)
  {
    TextsUpTo(lines, i);
    hide OldTexts, NewTexts;
    assert BeforeMarker(lines[1..], i - 1) == BeforeMarker(lines, i);
  }

  /** The ending for lines added in place of those from `at` to `end`: that of the first
      ended one of these, else of the line before, else the usual one. */
  ghost predicate AddedEnding(lines: seq<Line>, at: nat, end: nat, usual: Ending, ending: Ending)
    requires at <= end <= |lines|
  {
    if exists k | at <= k < end :: lines[k].ending.Some? then
      exists k | at <= k < end ::
        lines[k].ending == Some(ending) && forall j | at <= j < k :: lines[j].ending.None?
    else if at > 0 && lines[at - 1].ending.Some? then lines[at - 1].ending == Some(ending)
    else ending == usual
  }

  lemma {:induction false} FirstEndingIs(lines: seq<Line>) returns (k: nat)
    ensures FirstEnding(lines).Some? ==>
              k < |lines| && lines[k].ending == FirstEnding(lines) && forall j | 0 <= j < k :: lines[j].ending.None?
    ensures FirstEnding(lines).None? ==> forall j | 0 <= j < |lines| :: lines[j].ending.None?
  {
    k := 0;
    if lines != [] && lines[0].ending.None? {
      var rest := FirstEndingIs(lines[1..]);
      k := rest + 1;
      assert forall j | 1 <= j < |lines| :: lines[j] == lines[1..][j - 1];
    }
  }

  lemma RegionEndingIs(lines: seq<Line>, at: nat, end: nat, usual: Ending)
    requires at <= end <= |lines|
    ensures AddedEnding(lines, at, end, usual, RegionEnding(lines[at..end], Last(lines[..at]), usual))
  {
    var region := lines[at..end];
    var k := FirstEndingIs(region);
    assert forall j | at <= j < end :: lines[j] == region[j - at];
    if FirstEnding(region).Some? {
      assert lines[at + k].ending == FirstEnding(region);
    }
  }

  /** `now` is `lines` with the hunk applied at `at`: each of the hunk's lines leaves what
      it should, and the lines before and after stay as they were. */
  ghost predicate HunkLeaves(lines: seq<Line>, hunk: Hunk, at: nat, usual: Ending, now: seq<Line>) {
    var size, left := |OldTexts(hunk.lines)|, |NewTexts(hunk.lines)|;
    && at + size <= |lines|
    && |now| == |lines| - size + left
    && now[..at] == lines[..at]
    && now[at + left..] == lines[at + size..]
    && exists ending :: LeavesLines(lines, hunk, at, usual, now, ending)
  }

  ghost predicate LeavesLines(lines: seq<Line>, hunk: Hunk, at: nat, usual: Ending, now: seq<Line>, ending: Ending)
    requires at + |OldTexts(hunk.lines)| <= |lines| && at + |NewTexts(hunk.lines)| <= |now|
  {
    var end := at + |OldTexts(hunk.lines)|;
    && AddedEnding(lines, at, end, usual, ending)
    && forall i | 0 <= i < |hunk.lines| && Starts(hunk.lines[i], ' ', '+') ::
         && |NewTexts(hunk.lines[..i])| < |NewTexts(hunk.lines)|
         && LeftAs(hunk.lines, i, lines[at..end], ending, now[at + |NewTexts(hunk.lines[..i])|])
  }

  /** A hunk that applies does so where its old lines stand, and each of its lines leaves
      what it should there. */
  lemma AppliedHunkLeaves(lines: seq<Line>, hunk: Hunk, shift: int, usual: Ending)
    requires PatchedOnce(lines, hunk, shift, usual).Ok?
    ensures var at := Place(lines, hunk, shift).value;
            && MatchesAt(lines, OldTexts(hunk.lines), at)
            && HunkLeaves(lines, hunk, at, usual, PatchedOnce(lines, hunk, shift, usual).value)
  {
    hide Place, NewLines, RegionEnding, AddedEnding, LeftAs;
    PlaceMatches(lines, hunk, shift);
    var at, size := Place(lines, hunk, shift).value, |OldTexts(hunk.lines)|;
    var region := lines[at..at + size];
    var ending := RegionEnding(region, Last(lines[..at]), usual);
    RegionEndingIs(lines, at, at + size, usual);
    forall i | 0 <= i < |hunk.lines| && Starts(hunk.lines[i], ' ', '+')
      ensures |NewTexts(hunk.lines[..i])| < |NewTexts(hunk.lines)|
      ensures LeftAs(hunk.lines, i, region, ending, NewLines(hunk.lines, region, ending)[|NewTexts(hunk.lines[..i])|])
    {
      NewLineAt(hunk.lines, region, ending, i);
    }
    assert LeavesLines(lines, hunk, at, usual, PatchedOnce(lines, hunk, shift, usual).value, ending);
  }

  /** The usual ending is the commoner one, a newline alone when they are as common. */
  lemma UsualIsCommoner(lines: seq<Line>)
    ensures var crlf, lf := set k | 0 <= k < |lines| && lines[k].ending == Some(CrLf),
                            set k | 0 <= k < |lines| && lines[k].ending == Some(Lf);
            UsualEnding(lines) == if |crlf| > |lf| then CrLf else Lf
  {
    CountIs(lines, CrLf, 0);
    CountIs(lines, Lf, 0);
    assert lines[0..] == lines;
  }

  lemma {:induction false} CountIs(lines: seq<Line>, ending: Ending, from: nat)
    requires from <= |lines|
    ensures CountEnding(lines[from..], ending) == |set k | from <= k < |lines| && lines[k].ending == Some(ending)|
    decreases |lines| - from
  {
    var all := set k | from <= k < |lines| && lines[k].ending == Some(ending);
    if from == |lines| {
      assert all == {};
    } else {
      CountIs(lines, ending, from + 1);
      var rest := set k | from + 1 <= k < |lines| && lines[k].ending == Some(ending);
      assert lines[from..][1..] == lines[from + 1..];
      assert all == rest + if lines[from].ending == Some(ending) then {from} else {};
    }
  }

  // ---------- why a patch does not apply ----------

  /** Why a hunk has no place: it inserts past the end, or its old lines stand in several
      places, or they do not stand where its header says, and nowhere else. */
  lemma RefusedFor(lines: seq<Line>, hunk: Hunk, shift: int)
    requires Place(lines, hunk, shift).Err?
    ensures var header := (if hunk.oldLines == 0 then hunk.oldStart else hunk.oldStart - 1) + shift;
            var at, texts := if header < 0 then 0 else header, OldTexts(hunk.lines);
            match Place(lines, hunk, shift).error
            case InsertsPastEnd(after, count) => texts == [] && after == at > |lines| == count
            case Ambiguous =>
              && !MatchesAt(lines, texts, at)
              && exists p, q :: p != q && MatchesAt(lines, texts, p) && MatchesAt(lines, texts, q)
            case Reads(line, have, want) =>
              var j := line - 1 - at;
              && 0 <= j < |texts| && at + j < |lines| && want == texts[j] && have == lines[at + j].text && have != want
              && (forall i | 0 <= i < j :: texts[i] == lines[at + i].text)
              && forall p :: !MatchesAt(lines, texts, p)
            case EndsBefore(line, want) =>
              var j := line - 1 - at;
              && 0 <= j < |texts| && at + j >= |lines| && want == texts[j]
              && (at <= |lines| ==> at + j == |lines| && forall i | 0 <= i < j :: texts[i] == lines[at + i].text)
              && forall p :: !MatchesAt(lines, texts, p)
            case NoMatch => false
  {
    var texts, at := OldTexts(hunk.lines), HeaderAt(hunk, shift);
    LandsUnambiguously(lines, hunk, shift);
    MismatchNamesTheFirst(lines, texts, at, 0);
    assert Place(lines, hunk, shift).error in {InsertsPastEnd(at, |lines|), Ambiguous, Mismatch(lines, texts, at, 0)};
  }

  /** A patch that does not apply names its file and the first hunk with no place, counted
      from one; those before it apply. */
  lemma ApplyFailsAt(text: string, patch: FilePatch)
    requires Applied(text, patch).Err?
    ensures var e, lines := Applied(text, patch).error, Split(text);
            && e.path == (if patch.newPath.Some? then patch.newPath.value
                          else if patch.oldPath.Some? then patch.oldPath.value else "")
            && 0 < e.failure.hunk <= |patch.hunks|
            && var before, hunk := PatchedBy(lines, patch.hunks, UsualEnding(lines), e.failure.hunk - 1),
                                   patch.hunks[e.failure.hunk - 1];
               before.Ok? && Place(before.value, hunk, |before.value| - |lines|) == Err(e.failure.reason)
  {
    hide PatchedBy, Place, Split, UsualEnding;
    FirstFailure(Split(text), patch.hunks, UsualEnding(Split(text)), |patch.hunks|);
  }

  lemma {:induction false} FirstFailure(lines: seq<Line>, hunks: seq<Hunk>, usual: Ending, n: nat)
    requires n <= |hunks| && PatchedBy(lines, hunks, usual, n).Err?
    ensures var e := PatchedBy(lines, hunks, usual, n).error;
            && 0 < e.hunk <= n
            && var before := PatchedBy(lines, hunks, usual, e.hunk - 1);
               before.Ok? && Place(before.value, hunks[e.hunk - 1], |before.value| - |lines|) == Err(e.reason)
  {
    hide Place, Patched;
    if PatchedBy(lines, hunks, usual, n - 1).Err? {
      FirstFailure(lines, hunks, usual, n - 1);
    }
  }

  // ---------- endings are kept ----------

  /** The line ends in `ending` if it has one; and when `whole`, nothing in its text
      could be taken for a line's end. */
  predicate Held(line: Line, ending: Ending, whole: bool) {
    && (line.ending.Some? ==> line.ending == Some(ending))
    && (whole ==> '\n' !in line.text && (ending == Lf ==> !EndsIn(line.text, '\r')))
  }

  predicate AllHeld(lines: seq<Line>, ending: Ending, whole: bool) {
    forall k | 0 <= k < |lines| :: Held(lines[k], ending, whole)
  }

  predicate HunkHeld(lines: seq<string>, ending: Ending) {
    forall k | 0 <= k < |lines| :: '\n' !in lines[k] && (ending == Lf ==> !EndsIn(lines[k], '\r'))
  }

  lemma {:induction false} NewLinesHeld(lines: seq<string>, region: seq<Line>, ending: Ending, whole: bool)
    requires |region| == |OldTexts(lines)| && AllHeld(region, ending, whole) && (whole ==> HunkHeld(lines, ending))
    ensures AllHeld(NewLines(lines, region, ending), ending, whole)
  {
    hide OldTexts, NewLines;
    if lines != [] {
      NewLinesFirst(lines, region, ending);
      assert Held(Line(lines[0], None), ending, whole);
      assert AllHeld(NewLine(lines, region, ending), ending, whole);
      assert AllHeld(RegionLeft(lines, region), ending, whole);
      hide NewLine, RegionLeft;
      NewLinesHeld(lines[1..], RegionLeft(lines, region), ending, whole);
    } else {
      NoNewLines(region, ending);
    }
  }

  lemma OneHunkHeld(before: seq<Line>, hunk: Hunk, shift: int, usual: Ending, whole: bool)
    requires AllHeld(before, usual, whole) && (whole ==> HunkHeld(hunk.lines, usual))
    requires PatchedOnce(before, hunk, shift, usual).Ok?
    ensures AllHeld(PatchedOnce(before, hunk, shift, usual).value, usual, whole)
  {
    hide NewLines, HunkHeld, MatchesAt, RegionEnding, Place;
    PlaceMatches(before, hunk, shift);
    var at := Place(before, hunk, shift).value;
    var end := at + |OldTexts(hunk.lines)|;
    assert end <= |before| by { MatchEnds(before, OldTexts(hunk.lines), at); }
    var region := before[at..end];
    RegionEndingIs(before, at, end, usual);
    assert RegionEnding(region, Last(before[..at]), usual) == usual by {
      assert forall k | 0 <= k < |before| :: Held(before[k], usual, whole);
    }
    NewLinesHeld(hunk.lines, region, usual, whole);
  }

  lemma MatchEnds(lines: seq<Line>, texts: seq<string>, at: nat)
    requires MatchesAt(lines, texts, at)
    ensures at + |texts| <= |lines|
  {
  }

  lemma {:induction false} StaysHeld(original: seq<Line>, hunks: seq<Hunk>, usual: Ending, whole: bool, n: nat)
    requires n <= |hunks| && PatchedBy(original, hunks, usual, n).Ok?
    requires AllHeld(original, usual, whole)
    requires whole ==> forall k | 0 <= k < |hunks| :: HunkHeld(hunks[k].lines, usual)
    ensures AllHeld(PatchedBy(original, hunks, usual, n).value, usual, whole)
  {
    hide PatchedOnce, AllHeld, HunkHeld;
    if n > 0 {
      StaysHeld(original, hunks, usual, whole, n - 1);
      var before := PatchedBy(original, hunks, usual, n - 1).value;
      OneHunkHeld(before, hunks[n - 1], |before| - |original|, usual, whole);
    }
  }

  /** Every text whose ended lines all end alike, and has one, keeps to that ending: so
      does each line a patch leaves. */
  lemma EndingsStay(text: string, patch: FilePatch, ending: Ending)
    requires Applied(text, patch).Ok?
    requires forall k | 0 <= k < |Split(text)| :: Split(text)[k].ending in {None, Some(ending)}
    requires exists k | 0 <= k < |Split(text)| :: Split(text)[k].ending == Some(ending)
    ensures UsualEnding(Split(text)) == ending
    ensures var now := PatchedBy(Split(text), patch.hunks, ending, |patch.hunks|);
            && now.Ok? && Applied(text, patch).value == Join(Closed(now.value, ending))
            && forall k | 0 <= k < |now.value| ::
                 Closed(now.value, ending)[k].ending in {None, Some(ending)}
  {
    hide PatchedBy, Split;
    UniformUsual(Split(text), ending);
    assert AllHeld(Split(text), ending, false);
    StaysHeld(Split(text), patch.hunks, ending, false, |patch.hunks|);
  }

  lemma UniformUsual(lines: seq<Line>, ending: Ending)
    requires forall k | 0 <= k < |lines| :: lines[k].ending in {None, Some(ending)}
    requires exists k | 0 <= k < |lines| :: lines[k].ending == Some(ending)
    ensures UsualEnding(lines) == ending
  {
    UsualIsCommoner(lines);
    var crlf, lf := set k | 0 <= k < |lines| && lines[k].ending == Some(CrLf),
                    set k | 0 <= k < |lines| && lines[k].ending == Some(Lf);
    var k :| 0 <= k < |lines| && lines[k].ending == Some(ending);
    if ending == Lf {
      assert crlf == {};
    } else {
      assert lf == {} && k in crlf;
    }
  }

  /** Each line break of the text is `ending`, and nothing at its end could become half
      of the other one. */
  predicate BreaksAs(text: string, ending: Ending) {
    if ending == CrLf then forall i | 0 <= i < |text| && text[i] == '\n' :: i > 0 && text[i - 1] == '\r'
    else forall i | 0 <= i < |text| && text[i] == '\r' :: i + 1 < |text| && text[i + 1] != '\n'
  }

  lemma {:induction false} JoinBreaksAs(lines: seq<Line>, ending: Ending)
    requires AllHeld(lines, ending, true)
    ensures BreaksAs(Join(lines), ending)
    ensures ending == Lf ==> !EndsIn(Join(lines), '\r')
  {
    if lines != [] {
      assert Held(lines[0], ending, true);
      JoinBreaksAs(lines[1..], ending);
      LineBreaksAs(lines[0], Join(lines[1..]), ending);
    }
  }

  lemma LineBreaksAs(line: Line, rest: string, ending: Ending)
    requires Held(line, ending, true) && BreaksAs(rest, ending) && (ending == Lf ==> !EndsIn(rest, '\r'))
    ensures BreaksAs(line.Text() + rest, ending)
    ensures ending == Lf ==> !EndsIn(line.Text() + rest, '\r')
  {
    var head := line.Text();
    assert forall i | |head| <= i < |head + rest| :: (head + rest)[i] == rest[i - |head|];
    assert forall i | 0 <= i < |head| :: (head + rest)[i] == head[i];
    assert forall i | 0 <= i < |line.text| :: line.text[i] in line.text && head[i] == line.text[i];
  }

  lemma {:induction false} SplitHeld(lines: seq<Line>, ending: Ending)
    requires AllReadable(lines) && BreaksAs(Join(lines), ending)
    ensures AllHeld(lines, ending, true)
    ensures '\n' in Join(lines) ==> exists k | 0 <= k < |lines| :: lines[k].ending == Some(ending)
  {
    if lines != [] {
      var head, rest := lines[0].Text(), Join(lines[1..]);
      assert Readable(lines[0], 1 == |lines|);
      TailIsReadable(lines);
      FirstHeld(lines[0], rest, ending);
      SplitHeld(lines[1..], ending);
      if '\n' in rest {
        var k :| 0 <= k < |lines[1..]| && lines[1..][k].ending == Some(ending);
        assert lines[k + 1].ending == Some(ending);
      } else if '\n' in head + rest {
        assert lines[0].ending == Some(ending);
      }
    }
  }

  lemma FirstHeld(line: Line, rest: string, ending: Ending)
    requires Readable(line, rest == "") && BreaksAs(line.Text() + rest, ending)
    ensures Held(line, ending, true) && BreaksAs(rest, ending)
  {
    var head := line.Text();
    var text := head + rest;
    assert forall i | 0 <= i < |rest| :: rest[i] == text[|head| + i];
    if line.ending.Some? {
      assert text[|head| - 1] == '\n';
      assert line.text != "" ==> text[|line.text| - 1] == line.text[|line.text| - 1];
      assert line.ending == Some(CrLf) ==> text[|head| - 2] == '\r';
    } else {
      assert text == line.text;
    }
  }

  /** A text that breaks its lines one way, and has a line break, still breaks all its
      lines that way after any patch that applies, as long as no line of the patch holds a
      line break or half of one. */
  lemma BreaksStay(text: string, patch: FilePatch, ending: Ending)
    requires Applied(text, patch).Ok? && '\n' in text && BreaksAs(text, ending)
    requires forall k | 0 <= k < |patch.hunks| :: HunkHeld(patch.hunks[k].lines, ending)
    ensures BreaksAs(Applied(text, patch).value, ending)
  {
    hide PatchedBy, Split, HunkHeld, BreaksAs;
    JoinOfSplit(text);
    SplitHeld(Split(text), ending);
    UniformUsual(Split(text), ending);
    StaysHeld(Split(text), patch.hunks, ending, true, |patch.hunks|);
    var now := PatchedBy(Split(text), patch.hunks, ending, |patch.hunks|).value;
    JoinBreaksAs(Closed(now, ending), ending);
  }
}
