/** What applying a patch promises. */
module PatchProofs {
  import opened Base
  import opened Patches

  // ---------- splitting and joining are inverse ----------

  lemma {:induction false} FirstAt(head: string, c: char, tail: string)
    requires c !in head
    ensures IndexOf(head + [c] + tail, c) == Some(|head|)
  {
    var text := head + [c] + tail;
    if head == "" {
      assert text == [c] + tail;
    } else {
      assert text[1..] == head[1..] + [c] + tail;
      FirstAt(head[1..], c, tail);
    }
  }

  /** The line can be what splitting a text yields: `last` when no line follows. */
  predicate Readable(line: Line, last: bool) {
    && '\n' !in line.text
    && (line.ending.None? ==> last && line.text != "")
    && (line.ending == Some(Lf) ==> !EndsIn(line.text, '\r'))
  }

  predicate AllReadable(lines: seq<Line>) {
    forall k | 0 <= k < |lines| :: Readable(lines[k], k + 1 == |lines|)
  }

  lemma {:induction false} JoinOfSplit(text: string)
    ensures Join(Split(text)) == text
    ensures AllReadable(Split(text))
    decreases |text|
  {
    if text != "" {
      var (line, rest) := Cut(text);
      JoinOfSplit(rest);
      CutIsReadable(text);
    }
  }

  lemma CutIsReadable(text: string)
    requires text != ""
    ensures Cut(text).0.Text() + Cut(text).1 == text
    ensures Readable(Cut(text).0, Cut(text).1 == "")
  {
    var end := IndexOf(text, '\n');
    if end.Some? {
      var head := text[..end.value];
      assert text == head + "\n" + text[end.value + 1..];
      if EndsIn(head, '\r') {
        assert head == head[..|head| - 1] + "\r";
      }
    }
  }

  lemma CutOfLine(line: Line, rest: string)
    requires Readable(line, rest == "")
    ensures line.Text() + rest != ""
    ensures Cut(line.Text() + rest) == (line, rest)
  {
    var text := line.Text() + rest;
    if line.ending.None? {
      assert text == line.text;
    } else {
      var head := if line.ending == Some(Lf) then line.text else line.text + "\r";
      assert text == head + "\n" + rest;
      FirstAt(head, '\n', rest);
      assert text[..|head|] == head && text[|head| + 1..] == rest;
    }
  }

  lemma {:induction false} SplitOfJoin(lines: seq<Line>)
    requires AllReadable(lines)
    ensures Split(Join(lines)) == lines
  {
    if lines != [] {
      TailIsReadable(lines);
      SplitOfJoin(lines[1..]);
      assert Readable(lines[0], 1 == |lines|);
      JoinIsEmpty(lines[1..]);
      CutOfLine(lines[0], Join(lines[1..]));
    }
  }

  lemma TailIsReadable(lines: seq<Line>)
    requires lines != [] && AllReadable(lines)
    ensures AllReadable(lines[1..])
  {
    forall k | 0 <= k < |lines[1..]|
      ensures Readable(lines[1..][k], k + 1 == |lines[1..]|)
    {
      assert Readable(lines[k + 1], k + 2 == |lines|);
    }
  }

  lemma JoinIsEmpty(lines: seq<Line>)
    requires AllReadable(lines)
    ensures Join(lines) == "" <==> lines == []
  {
    if lines != [] {
      assert Readable(lines[0], 1 == |lines|);
    }
  }

  /** Joining then splitting gives the lines back exactly when each is one that
      splitting can yield. */
  lemma SplitOfJoinExactly(lines: seq<Line>)
    ensures Split(Join(lines)) == lines <==> AllReadable(lines)
  {
    if AllReadable(lines) {
      SplitOfJoin(lines);
    }
    JoinOfSplit(Join(lines));
  }

  // ---------- where hunks land ----------

  /** A hunk lands at its header's position if its old lines stand there, and
      otherwise only where they stand and nowhere else. It is refused as
      ambiguous exactly when they stand in two other places, and as not
      matching exactly when they stand nowhere. */
  lemma LandsUnambiguously(lines: seq<Line>, hunk: Hunk, shift: int)
    ensures var texts, at, place := OldTexts(hunk.lines), HeaderAt(hunk, shift), Place(lines, hunk, shift);
            && (place.Ok? ==>
                  && MatchesAt(lines, texts, place.value)
                  && (place.value == at || forall p | MatchesAt(lines, texts, p) :: p == place.value))
            && (MatchesAt(lines, texts, at) ==> place == Ok(at))
            && (place == Err(Ambiguous) <==>
                  && !MatchesAt(lines, texts, at)
                  && texts != []
                  && (exists p, q :: p != q && MatchesAt(lines, texts, p) && MatchesAt(lines, texts, q)))
            && (place.Err? && place != Err(Ambiguous) <==>
                  (texts == [] && at > |lines|) || forall p :: !MatchesAt(lines, texts, p))
  {
    var texts, at := OldTexts(hunk.lines), HeaderAt(hunk, shift);
    var found := Occurrences(lines, texts, 0);
    OccurrencesMatch(lines, texts, 0);
    if |found| >= 2 {
      assert MatchesAt(lines, texts, found[0]) && MatchesAt(lines, texts, found[1]) && found[0] < found[1];
    }
    MismatchIsNotAmbiguous(lines, texts, at, 0);
  }

  lemma {:induction false} MismatchIsNotAmbiguous(lines: seq<Line>, texts: seq<string>, at: nat, k: nat)
    requires k <= |texts|
    ensures Mismatch(lines, texts, at, k) != Ambiguous
    decreases |texts| - k
  {
    if k < |texts| {
      MismatchIsNotAmbiguous(lines, texts, at, k + 1);
    }
  }

  /** The reason given for a hunk that does not match names the first of its
      old lines that does not stand where the header says. */
  lemma {:induction false} MismatchNamesTheFirst(lines: seq<Line>, texts: seq<string>, at: nat, k: nat)
    requires k <= |texts| && (k > 0 ==> at + k <= |lines|)
    requires forall j | 0 <= j < k && at + j < |lines| :: lines[at + j].text == texts[j]
    ensures var r := Mismatch(lines, texts, at, k);
            match r
            case Reads(line, have, want) =>
              var j := line - 1 - at;
              && 0 <= j < |texts| && at + j < |lines| && want == texts[j] && have == lines[at + j].text && have != want
              && MatchesAt(lines, texts[..j], at)
            case EndsBefore(line, want) =>
              var j := line - 1 - at;
              && 0 <= j < |texts| && at + j >= |lines| && want == texts[j]
              && (at <= |lines| ==> MatchesAt(lines, texts[..j], at))
            case _ => r == NoMatch && (at <= |lines| ==> MatchesAt(lines, texts, at))
    decreases |texts| - k
  {
    if k < |texts| && at + k < |lines| && lines[at + k].text == texts[k] {
      MismatchNamesTheFirst(lines, texts, at, k + 1);
    }
  }

  // ---------- accurate patches ----------

  /** Where an accurate hunk's region starts in the original text. */
  function StartOf(hunk: Hunk): int {
    if hunk.oldLines == 0 then hunk.oldStart else hunk.oldStart - 1
  }

  /** The hunks, from `from` on, are in order, do not overlap, and say truly
      where their old lines stand in the original. */
  ghost predicate Accurate(original: seq<Line>, hunks: seq<Hunk>, from: nat) {
    hunks != [] ==>
      && hunks[0].oldLines == |OldTexts(hunks[0].lines)|
      && from <= StartOf(hunks[0])
      && MatchesAt(original, OldTexts(hunks[0].lines), StartOf(hunks[0]))
      && Accurate(original, hunks[1..], StartOf(hunks[0]) + hunks[0].oldLines)
  }

  /** What takes the place of the original from `from` to the end of the hunk's
      region: the untouched lines before the region, then the hunk's new lines.
      `before` is the line that all this follows. */
  ghost function Fill(original: seq<Line>, hunk: Hunk, from: nat, before: Option<Line>, usual: Ending): seq<Line>
    requires from <= StartOf(hunk) && StartOf(hunk) + hunk.oldLines <= |original|
    requires hunk.oldLines == |OldTexts(hunk.lines)|
  {
    var gap := original[from..StartOf(hunk)];
    var region := original[StartOf(hunk)..StartOf(hunk) + hunk.oldLines];
    gap + NewLines(hunk.lines, region, RegionEnding(region, LastOr(gap, before), usual))
  }

  function LastOr(lines: seq<Line>, before: Option<Line>): Option<Line> {
    if lines == [] then before else Last(lines)
  }

  /** All hunks applied at once: the untouched stretches of the original, with
      each hunk's new lines between them. */
  ghost function AtOnce(
    original: seq<Line>, hunks: seq<Hunk>, from: nat, before: Option<Line>, usual: Ending): seq<Line>
    requires from <= |original| && Accurate(original, hunks, from)
  {
    if hunks == [] then original[from..]
    else
      var fill := Fill(original, hunks[0], from, before, usual);
      fill + AtOnce(original, hunks[1..], StartOf(hunks[0]) + hunks[0].oldLines, LastOr(fill, before), usual)
  }

  /** An accurate hunk applied to a text that still ends in the original from
      `from` on: its header, moved by how much the part before has grown, is
      exactly where it belongs. */
  lemma OneAccurateHunk(done: seq<Line>, original: seq<Line>, hunks: seq<Hunk>, from: nat, usual: Ending)
    requires hunks != [] && from <= |original| && Accurate(original, hunks, from)
    ensures PatchedOnce(done + original[from..], hunks[0], |done| - from, usual)
         == Ok(done + Fill(original, hunks[0], from, Last(done), usual)
               + original[StartOf(hunks[0]) + hunks[0].oldLines..])
  {
    hide NewLines, RegionEnding;
    var lines, texts := done + original[from..], OldTexts(hunks[0].lines);
    var at, end := StartOf(hunks[0]), StartOf(hunks[0]) + hunks[0].oldLines;
    var here := |done| - from + at;
    assert HeaderAt(hunks[0], |done| - from) == here;
    forall k | 0 <= k < |texts|
      ensures texts[k] == lines[here + k].text
    {
      assert lines[here + k] == original[at + k];
    }
    assert Place(lines, hunks[0], |done| - from) == Ok(here);
    assert lines[..here] == done + original[from..at];
    assert lines[here..here + |texts|] == original[at..end];
    assert lines[here + |texts|..] == original[end..];
    var gap := original[from..at];
    assert Last(done + gap) == LastOr(gap, Last(done));
    var now := NewLines(hunks[0].lines, original[at..end], RegionEnding(original[at..end], Last(done + gap), usual));
    assert done + gap + now + original[end..] == done + (gap + now) + original[end..];
  }

  lemma {:induction false} RestAtOnce(
    original: seq<Line>, hunks: seq<Hunk>, usual: Ending, n: nat, done: seq<Line>, from: nat)
    requires n <= |hunks| && from <= |original| && Accurate(original, hunks[n..], from)
    requires PatchedBy(original, hunks, usual, n) == Ok(done + original[from..])
    ensures PatchedBy(original, hunks, usual, |hunks|)
         == Ok(done + AtOnce(original, hunks[n..], from, Last(done), usual))
    decreases |hunks| - n
  {
    hide PatchedOnce, Fill;
    if n < |hunks| {
      var rest := hunks[n..];
      assert rest[0] == hunks[n] && rest[1..] == hunks[n + 1..];
      var fill := Fill(original, rest[0], from, Last(done), usual);
      OneAccurateHunk(done, original, rest, from, usual);
      OneMore(original, hunks, usual, n, done + original[from..]);
      RestAtOnce(original, hunks, usual, n + 1, done + fill, StartOf(rest[0]) + rest[0].oldLines);
      assert Last(done + fill) == LastOr(fill, Last(done));
      var more := AtOnce(original, rest[1..], StartOf(rest[0]) + rest[0].oldLines, LastOr(fill, Last(done)), usual);
      assert done + fill + more == done + (fill + more);
    }
  }

  /** Applying the hunks of an accurate patch one after the other, each at its
      shifted position, succeeds and equals applying them all at once. */
  lemma SequentialIsAtOnce(original: seq<Line>, hunks: seq<Hunk>, usual: Ending)
    requires Accurate(original, hunks, 0)
    ensures PatchedBy(original, hunks, usual, |hunks|) == Ok(AtOnce(original, hunks, 0, None, usual))
  {
    assert hunks[0..] == hunks && original[0..] == original && [] + original == original;
    RestAtOnce(original, hunks, usual, 0, [], 0);
    assert [] + AtOnce(original, hunks, 0, None, usual) == AtOnce(original, hunks, 0, None, usual);
  }

  /** The texts an accurate patch gives: the original's between the hunks, and
      each hunk's own. */
  ghost function TextsAtOnce(original: seq<Line>, hunks: seq<Hunk>, from: nat): seq<string>
    requires from <= |original| && Accurate(original, hunks, from)
  {
    if hunks == [] then Texts(original[from..])
    else
      Texts(original[from..StartOf(hunks[0])]) + NewTexts(hunks[0].lines)
      + TextsAtOnce(original, hunks[1..], StartOf(hunks[0]) + hunks[0].oldLines)
  }

  lemma TextsAfter(lines: seq<string>, region: seq<Line>)
    requires lines != [] && Texts(region) == OldTexts(lines)
    ensures var was := Marked(lines[0], ' ') || Marked(lines[0], '-');
            if was then region != [] && region[0].text == lines[0][1..] && Texts(region[1..]) == OldTexts(lines[1..])
            else Texts(region) == OldTexts(lines[1..])
  {
    if Marked(lines[0], ' ') || Marked(lines[0], '-') {
      assert OldTexts(lines) == [lines[0][1..]] + OldTexts(lines[1..]);
      assert Texts(region)[0] == lines[0][1..];
      assert Texts(region[1..]) == Texts(region)[1..];
    }
  }

  lemma {:induction false} NewLinesHaveNewTexts(lines: seq<string>, region: seq<Line>, ending: Ending)
    requires Texts(region) == OldTexts(lines)
    ensures Texts(NewLines(lines, region, ending)) == NewTexts(lines)
  {
    hide OldTexts, NewLines;
    if lines != [] {
      TextsAfter(lines, region);
      NewLinesFirst(lines, region, ending);
      var made, left := NewLine(lines, region, ending), RegionLeft(lines, region);
      NewLinesHaveNewTexts(lines[1..], left, ending);
      TextsAdd(made, NewLines(lines[1..], left, ending));
      assert Texts(made) == if Marked(lines[0], ' ') || Marked(lines[0], '+') then [lines[0][1..]] else [];
    }
  }

  lemma TextsAdd(a: seq<Line>, b: seq<Line>)
    ensures Texts(a + b) == Texts(a) + Texts(b)
  {
  }

  lemma FillHasTexts(original: seq<Line>, hunk: Hunk, from: nat, before: Option<Line>, usual: Ending)
    requires from <= StartOf(hunk) && hunk.oldLines == |OldTexts(hunk.lines)|
    requires MatchesAt(original, OldTexts(hunk.lines), StartOf(hunk))
    ensures Texts(Fill(original, hunk, from, before, usual))
         == Texts(original[from..StartOf(hunk)]) + NewTexts(hunk.lines)
  {
    hide NewLines, RegionEnding, NewTexts;
    var gap := original[from..StartOf(hunk)];
    var region := original[StartOf(hunk)..StartOf(hunk) + hunk.oldLines];
    assert Texts(region) == OldTexts(hunk.lines);
    NewLinesHaveNewTexts(hunk.lines, region, RegionEnding(region, LastOr(gap, before), usual));
  }

  lemma AtOnceFirst(original: seq<Line>, hunks: seq<Hunk>, from: nat, before: Option<Line>, usual: Ending)
    requires hunks != [] && from <= |original| && Accurate(original, hunks, from)
    ensures from <= StartOf(hunks[0]) && StartOf(hunks[0]) + hunks[0].oldLines <= |original|
    ensures hunks[0].oldLines == |OldTexts(hunks[0].lines)|
    ensures MatchesAt(original, OldTexts(hunks[0].lines), StartOf(hunks[0]))
    ensures var end := StartOf(hunks[0]) + hunks[0].oldLines;
            var fill := Fill(original, hunks[0], from, before, usual);
            && Accurate(original, hunks[1..], end)
            && AtOnce(original, hunks, from, before, usual)
                 == fill + AtOnce(original, hunks[1..], end, LastOr(fill, before), usual)
            && TextsAtOnce(original, hunks, from)
                 == Texts(original[from..StartOf(hunks[0])]) + NewTexts(hunks[0].lines)
                    + TextsAtOnce(original, hunks[1..], end)
  {
    hide Fill, Texts, NewTexts, LastOr;
  }

  lemma {:induction false} AtOnceHasTexts(
    original: seq<Line>, hunks: seq<Hunk>, from: nat, before: Option<Line>, usual: Ending)
    requires from <= |original| && Accurate(original, hunks, from)
    ensures Texts(AtOnce(original, hunks, from, before, usual)) == TextsAtOnce(original, hunks, from)
    decreases |hunks|
  {
    hide Fill, Texts, NewTexts, LastOr;
    if hunks != [] {
      hide AtOnce, TextsAtOnce, Accurate, MatchesAt, OldTexts;
      AtOnceFirst(original, hunks, from, before, usual);
      var end := StartOf(hunks[0]) + hunks[0].oldLines;
      var fill := Fill(original, hunks[0], from, before, usual);
      FillHasTexts(original, hunks[0], from, before, usual);
      AtOnceHasTexts(original, hunks[1..], end, LastOr(fill, before), usual);
      TextsAdd(fill, AtOnce(original, hunks[1..], end, LastOr(fill, before), usual));
    }
  }

  // ---------- what every applied patch keeps ----------

  function Removed(hunks: seq<Hunk>): nat {
    if hunks == [] then 0 else Removed(hunks[..|hunks| - 1]) + |OldTexts(hunks[|hunks| - 1].lines)|
  }

  function Added(hunks: seq<Hunk>): nat {
    if hunks == [] then 0 else Added(hunks[..|hunks| - 1]) + |NewTexts(hunks[|hunks| - 1].lines)|
  }

  /** For each line of `now`, the original line it still is, if any. */
  ghost predicate Traces(original: seq<Line>, now: seq<Line>, origins: seq<Option<nat>>) {
    && |origins| == |now|
    && (forall k | 0 <= k < |origins| && origins[k].Some? ::
          origins[k].value < |original| && now[k] == original[origins[k].value])
    && (forall j, k | 0 <= j < k < |origins| && origins[j].Some? && origins[k].Some? ::
          origins[j].value < origins[k].value)
  }

  function Survivors(origins: seq<Option<nat>>): nat {
    if origins == [] then 0 else Survivors(origins[1..]) + if origins[0].Some? then 1 else 0
  }

  lemma {:induction false} SurvivorsAdd(a: seq<Option<nat>>, b: seq<Option<nat>>)
    ensures Survivors(a + b) == Survivors(a) + Survivors(b)
  {
    if a == [] {
      assert a + b == b;
    } else {
      SurvivorsAdd(a[1..], b);
      assert (a + b)[1..] == a[1..] + b;
    }
  }

  lemma {:induction false} SurvivorsBounded(a: seq<Option<nat>>)
    ensures Survivors(a) <= |a|
  {
    if a != [] {
      SurvivorsBounded(a[1..]);
    }
  }

  lemma {:induction false} AllSurvive(n: nat, lead: nat)
    ensures Survivors(seq(n, k requires 0 <= k < n => Some(lead + k))) == n
  {
    if n > 0 {
      AllSurvive(n - 1, lead + 1);
      var all := seq(n, k requires 0 <= k < n => Some(lead + k));
      assert all[1..] == seq(n - 1, k requires 0 <= k < n - 1 => Some(lead + 1 + k));
    }
  }

  lemma TracesSpliced(
    original: seq<Line>, before: seq<Line>, was: seq<Option<nat>>, at: nat, end: nat,
    now: seq<Line>, blank: seq<Option<nat>>)
    requires Traces(original, before, was) && at <= end <= |before| && |blank| == |now|
    requires forall k | 0 <= k < |blank| :: blank[k] == None
    ensures Traces(original, before[..at] + now + before[end..], was[..at] + blank + was[end..])
  {
  }

  /** Lines on their way through a patch: for each the original line it still is, if
      any, and the original lines that hunks matched where they landed. */
  datatype Tracked = Tracked(lines: seq<Line>, origins: seq<Option<nat>>, matched: set<nat>)

  function Named(origins: seq<Option<nat>>): set<nat> {
    set k | 0 <= k < |origins| && origins[k].Some? :: origins[k].value
  }

  function Blank(n: nat): (r: seq<Option<nat>>)
    ensures |r| == n && forall k | 0 <= k < n :: r[k] == None
  {
    seq(n, _ => None)
  }

  /** One hunk takes the lines it matches out and puts its own in. */
  function AfterHunk(t: Tracked, hunk: Hunk, shift: int, usual: Ending): (r: Tracked)
    requires |t.origins| == |t.lines|
    ensures |r.origins| == |r.lines|
  {
    match Place(t.lines, hunk, shift)
    case Err(_) => t
    case Ok(at) =>
      PlaceMatches(t.lines, hunk, shift);
      var end := at + |OldTexts(hunk.lines)|;
      Tracked(Patched(t.lines, hunk, at, usual),
              t.origins[..at] + Blank(|NewTexts(hunk.lines)|) + t.origins[end..],
              t.matched + Named(t.origins[at..end]))
  }

  function AfterHunks(original: seq<Line>, hunks: seq<Hunk>, usual: Ending, n: nat): (r: Tracked)
    requires n <= |hunks|
    ensures |r.origins| == |r.lines|
  {
    if n == 0 then Tracked(original, seq(|original|, k requires 0 <= k < |original| => Some(0 + k)), {})
    else
      var before := AfterHunks(original, hunks, usual, n - 1);
      AfterHunk(before, hunks[n - 1], |before.lines| - |original|, usual)
  }

  /** The origins are those of the original lines no hunk matched. */
  ghost predicate Unmatched(original: seq<Line>, t: Tracked) {
    forall i: nat :: Some(i) in t.origins <==> i < |original| && i !in t.matched
  }

  lemma OriginIn(was: seq<Option<nat>>, at: nat, end: nat, blank: seq<Option<nat>>, i: nat)
    requires at <= end <= |was| && forall k | 0 <= k < |blank| :: blank[k] == None
    requires forall j, k | 0 <= j < k < |was| && was[j].Some? && was[k].Some? :: was[j].value < was[k].value
    ensures Some(i) in was[..at] + blank + was[end..] <==> Some(i) in was && i !in Named(was[at..end])
  {
    var kept, region := was[..at] + blank + was[end..], was[at..end];
    assert was == was[..at] + region + was[end..];
    assert Some(i) in kept <==> Some(i) in was[..at] || Some(i) in was[end..];
    assert Some(i) in was <==> Some(i) in was[..at] || Some(i) in region || Some(i) in was[end..];
    if i in Named(region) {
      var k :| 0 <= k < |region| && region[k] == Some(i);
      assert was[at + k] == Some(i);
      assert forall j | 0 <= j < |was| && j != at + k :: was[j] != Some(i);
    }
  }

  lemma SurvivorsSpliced(was: seq<Option<nat>>, at: nat, end: nat, blank: seq<Option<nat>>)
    requires at <= end <= |was|
    ensures Survivors(was[..at] + blank + was[end..]) >= Survivors(was) - (end - at)
  {
    assert was == was[..at] + was[at..end] + was[end..];
    SurvivorsAdd(was[..at] + was[at..end], was[end..]);
    SurvivorsAdd(was[..at], was[at..end]);
    SurvivorsBounded(was[at..end]);
    SurvivorsAdd(was[..at] + blank, was[end..]);
    SurvivorsAdd(was[..at], blank);
  }

  /** However its hunks landed, a patch that applies changes the number of lines
      by exactly what the hunks add and remove, and the original lines that no hunk
      matched, and no others, are still there, in order, each with its text and
      ending. */
  lemma {:induction false} KeepsTheRest(original: seq<Line>, hunks: seq<Hunk>, usual: Ending, n: nat)
    requires n <= |hunks| && PatchedBy(original, hunks, usual, n).Ok?
    ensures var t := AfterHunks(original, hunks, usual, n);
            && PatchedBy(original, hunks, usual, n) == Ok(t.lines)
            && |t.lines| == |original| + Added(hunks[..n]) - Removed(hunks[..n])
            && Traces(original, t.lines, t.origins)
            && Unmatched(original, t)
            && Survivors(t.origins) >= |original| - Removed(hunks[..n])
  {
    hide PatchedOnce, AfterHunk, Traces, Unmatched;
    if n == 0 {
      AllSurvive(|original|, 0);
      NothingMatched(original);
    } else {
      KeepsTheRest(original, hunks, usual, n - 1);
      var before := AfterHunks(original, hunks, usual, n - 1);
      assert hunks[..n][..n - 1] == hunks[..n - 1];
      OneHunkTraces(original, before, hunks[n - 1], |before.lines| - |original|, usual);
    }
  }

  lemma NothingMatched(original: seq<Line>)
    ensures var t := AfterHunks(original, [], Lf, 0);
            Traces(original, original, t.origins) && Unmatched(original, t)
  {
    var t := AfterHunks(original, [], Lf, 0);
    forall i: nat ensures Some(i) in t.origins <==> i < |original| {
      if i < |original| { assert t.origins[i] == Some(i); }
    }
  }

  lemma OneHunkTraces(original: seq<Line>, t: Tracked, hunk: Hunk, shift: int, usual: Ending)
    requires |t.origins| == |t.lines| && Traces(original, t.lines, t.origins) && Unmatched(original, t)
    requires PatchedOnce(t.lines, hunk, shift, usual).Ok?
    ensures var now := AfterHunk(t, hunk, shift, usual);
            && PatchedOnce(t.lines, hunk, shift, usual) == Ok(now.lines)
            && |now.lines| == |t.lines| + |NewTexts(hunk.lines)| - |OldTexts(hunk.lines)|
            && Traces(original, now.lines, now.origins)
            && Unmatched(original, now)
            && Survivors(now.origins) >= Survivors(t.origins) - |OldTexts(hunk.lines)|
  {
    hide NewLines, RegionEnding, Survivors, Place, Named, Traces, OldTexts, NewTexts;
    PlaceMatches(t.lines, hunk, shift);
    var at := Place(t.lines, hunk, shift).value;
    var end := at + |OldTexts(hunk.lines)|;
    var region := t.lines[at..end];
    var made := NewLines(hunk.lines, region, RegionEnding(region, Last(t.lines[..at]), usual));
    var blank := Blank(|NewTexts(hunk.lines)|);
    TracesSpliced(original, t.lines, t.origins, at, end, made, blank);
    SurvivorsSpliced(t.origins, at, end, blank);
    var now := AfterHunk(t, hunk, shift, usual);
    forall i: nat ensures Some(i) in now.origins <==> i < |original| && i !in now.matched {
      Increasing(original, t.lines, t.origins);
      OriginIn(t.origins, at, end, blank, i);
    }
  }

  lemma Increasing(original: seq<Line>, now: seq<Line>, origins: seq<Option<nat>>)
    requires Traces(original, now, origins)
    ensures forall j, k | 0 <= j < k < |origins| && origins[j].Some? && origins[k].Some? ::
              origins[j].value < origins[k].value
  {
  }
}
