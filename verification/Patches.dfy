/** Unified diffs applied to text: what applying means, as functions, and the
    methods that do it with loops over lines. */
module Patches {
  import opened Base

  const NO_NEWLINE := "\\ No newline at end of file"

  datatype Hunk = Hunk(oldStart: nat, oldLines: nat, newStart: nat, newLines: nat, lines: seq<string>)

  /** One file's part of a diff. An absent path is `/dev/null`. */
  datatype FilePatch = FilePatch(oldPath: Option<string>, newPath: Option<string>, hunks: seq<Hunk>) {
    function Path(): string {
      newPath.GetOr(oldPath.GetOr(""))
    }
  }

  datatype Ending = Lf | CrLf {
    function Text(): string {
      if Lf? then "\n" else "\r\n"
    }
  }

  /** One line: its text, and what ends it. */
  datatype Line = Line(text: string, ending: Option<Ending>) {
    function Text(): string {
      text + if ending.Some? then ending.value.Text() else ""
    }
  }

  datatype Reason =
    | InsertsPastEnd(after: nat, lines: nat)
    | Reads(line: nat, have: string, want: string)
    | EndsBefore(line: nat, want: string)
    | NoMatch
    | Ambiguous

  /** Hunk number `hunk`, counted from one, does not apply. */
  datatype Failure = Failure(hunk: nat, reason: Reason)

  datatype HunkError = HunkError(path: string, failure: Failure)

  // ---------- lines ----------

  function IndexOf(text: string, c: char): (i: Option<nat>)
    ensures i.Some? ==> i.value < |text| && text[i.value] == c && c !in text[..i.value]
    ensures i.None? ==> c !in text
  {
    if text == "" then None
    else if text[0] == c then Some(0)
    else
      var i := IndexOf(text[1..], c);
      assert text == [text[0]] + text[1..];
      if i.Some? then
        assert text[..i.value + 1] == [text[0]] + text[1..][..i.value];
        Some(i.value + 1)
      else None
  }

  predicate EndsIn(text: string, c: char) {
    text != "" && text[|text| - 1] == c
  }

  /** The line a newline ends, with a carriage return before it taken off. */
  function Ended(text: string): Line {
    if EndsIn(text, '\r') then Line(text[..|text| - 1], Some(CrLf)) else Line(text, Some(Lf))
  }

  /** The first line of `text`, and what follows it. */
  function Cut(text: string): (c: (Line, string))
    requires text != ""
    ensures |c.1| < |text|
  {
    match IndexOf(text, '\n')
    case Some(end) => (Ended(text[..end]), text[end + 1..])
    case None => (Line(text, None), "")
  }

  function Split(text: string): seq<Line>
    decreases |text|
  {
    if text == "" then [] else [Cut(text).0] + Split(Cut(text).1)
  }

  function Join(lines: seq<Line>): string {
    if lines == [] then "" else lines[0].Text() + Join(lines[1..])
  }

  method SplitLines(text: string) returns (lines: seq<Line>)
    ensures lines == Split(text)
  {
    hide Cut;
    lines := [];
    var rest := text;
    while rest != ""
      invariant Split(text) == lines + Split(rest)
      decreases |rest|
    {
      var (line, tail) := Cut(rest);
      lines := lines + [line];
      rest := tail;
    }
  }

  function CountEnding(lines: seq<Line>, ending: Ending): nat {
    if lines == [] then 0
    else (if lines[0].ending == Some(ending) then 1 else 0) + CountEnding(lines[1..], ending)
  }

  /** The commoner ending, a newline alone when they are as common. */
  function UsualEnding(lines: seq<Line>): Ending {
    if CountEnding(lines, CrLf) > CountEnding(lines, Lf) then CrLf else Lf
  }

  // ---------- one hunk ----------

  /** The line says that the one before it has no newline. */
  predicate IsNoNewline(line: string) {
    line == NO_NEWLINE
  }

  predicate Marked(line: string, c: char) {
    line != "" && line[0] == c
  }

  /** The texts a hunk expects to find. */
  function OldTexts(lines: seq<string>): seq<string> {
    if lines == [] then []
    else (if Marked(lines[0], ' ') || Marked(lines[0], '-') then [lines[0][1..]] else []) + OldTexts(lines[1..])
  }

  /** The texts a hunk leaves behind. */
  function NewTexts(lines: seq<string>): seq<string> {
    if lines == [] then []
    else (if Marked(lines[0], ' ') || Marked(lines[0], '+') then [lines[0][1..]] else []) + NewTexts(lines[1..])
  }

  function Texts(lines: seq<Line>): (texts: seq<string>)
    ensures |texts| == |lines| && forall k | 0 <= k < |lines| :: texts[k] == lines[k].text
  {
    seq(|lines|, k requires 0 <= k < |lines| => lines[k].text)
  }

  /** The first index the header gives, counted from zero, moved by `shift`. */
  function HeaderAt(hunk: Hunk, shift: int): nat {
    var at := (if hunk.oldLines == 0 then hunk.oldStart else hunk.oldStart - 1) + shift;
    if at < 0 then 0 else at
  }

  predicate MatchesAt(lines: seq<Line>, texts: seq<string>, at: nat) {
    at + |texts| <= |lines| && forall k | 0 <= k < |texts| :: texts[k] == lines[at + k].text
  }

  /** Where `texts` occur in `lines` at or after `from`, in order. */
  function Occurrences(lines: seq<Line>, texts: seq<string>, from: nat): seq<nat>
    decreases |lines| + 1 - from
  {
    if from > |lines| then []
    else if MatchesAt(lines, texts, from) then [from] + Occurrences(lines, texts, from + 1)
    else Occurrences(lines, texts, from + 1)
  }

  /** The first of `texts`, from number `k` on, that does not stand in `lines`. */
  function Mismatch(lines: seq<Line>, texts: seq<string>, at: nat, k: nat): Reason
    requires k <= |texts|
    decreases |texts| - k
  {
    if k == |texts| then NoMatch
    else if at + k >= |lines| then EndsBefore(at + k + 1, texts[k])
    else if lines[at + k].text == texts[k] then Mismatch(lines, texts, at, k + 1)
    else Reads(at + k + 1, lines[at + k].text, texts[k])
  }

  /** Where a hunk applies: where its header says, or the only place its old
      lines occur. */
  function Place(lines: seq<Line>, hunk: Hunk, shift: int): Result<nat, Reason> {
    var texts, expected := OldTexts(hunk.lines), HeaderAt(hunk, shift);
    if texts == [] && expected > |lines| then Err(InsertsPastEnd(expected, |lines|))
    else if MatchesAt(lines, texts, expected) then Ok(expected)
    else
      var found := Occurrences(lines, texts, 0);
      if |found| == 1 then Ok(found[0])
      else if found == [] then Err(Mismatch(lines, texts, expected, 0))
      else Err(Ambiguous)
  }

  function FirstEnding(lines: seq<Line>): Option<Ending> {
    if lines == [] then None
    else if lines[0].ending.Some? then lines[0].ending
    else FirstEnding(lines[1..])
  }

  /** The ending for added lines: that of the lines they replace, else of the
      line they follow, else the usual one. */
  function RegionEnding(region: seq<Line>, previous: Option<Line>, usual: Ending): Ending {
    var first := FirstEnding(region);
    if first.Some? then first.value
    else if previous.Some? then previous.value.ending.GetOr(usual)
    else usual
  }

  function Last(lines: seq<Line>): Option<Line> {
    if lines == [] then None else Some(lines[|lines| - 1])
  }

  /** What the first of the hunk's lines leaves. */
  function NewLine(lines: seq<string>, region: seq<Line>, ending: Ending): seq<Line>
    requires lines != [] && |region| == |OldTexts(lines)|
  {
    var noNewline := |lines| > 1 && IsNoNewline(lines[1]);
    if Marked(lines[0], ' ') then [Line(region[0].text, if noNewline then None else region[0].ending)]
    else if Marked(lines[0], '+') then [Line(lines[0][1..], if noNewline then None else Some(ending))]
    else []
  }

  /** What is left of the region after the first of the hunk's lines. */
  function RegionLeft(lines: seq<string>, region: seq<Line>): (left: seq<Line>)
    requires lines != [] && |region| == |OldTexts(lines)|
    ensures |left| == |OldTexts(lines[1..])|
  {
    if Marked(lines[0], ' ') || Marked(lines[0], '-') then region[1..] else region
  }

  /** What the hunk's lines leave in place of `region`. */
  function NewLines(lines: seq<string>, region: seq<Line>, ending: Ending): (now: seq<Line>)
    requires |region| == |OldTexts(lines)|
    ensures |now| == |NewTexts(lines)|
  {
    if lines == [] then []
    else NewLine(lines, region, ending) + NewLines(lines[1..], RegionLeft(lines, region), ending)
  }

  /** `lines` with the hunk applied at `at`. */
  function Patched(lines: seq<Line>, hunk: Hunk, at: nat, usual: Ending): (now: seq<Line>)
    requires at + |OldTexts(hunk.lines)| <= |lines|
    ensures |now| == |lines| - |OldTexts(hunk.lines)| + |NewTexts(hunk.lines)|
  {
    var end := at + |OldTexts(hunk.lines)|;
    var region := lines[at..end];
    lines[..at] + NewLines(hunk.lines, region, RegionEnding(region, Last(lines[..at]), usual)) + lines[end..]
  }

  /** `all` lists positions from `from` on where `texts` stand, in order. */
  ghost predicate Positions(lines: seq<Line>, texts: seq<string>, from: nat, all: seq<nat>) {
    && (forall k | 0 <= k < |all| :: from <= all[k] && MatchesAt(lines, texts, all[k]))
    && (forall j, k | 0 <= j < k < |all| :: all[j] < all[k])
  }

  lemma {:induction false} OccurrencesMatch(lines: seq<Line>, texts: seq<string>, from: nat)
    ensures Positions(lines, texts, from, Occurrences(lines, texts, from))
    ensures forall p | from <= p && MatchesAt(lines, texts, p) :: p in Occurrences(lines, texts, from)
    decreases |lines| + 1 - from
  {
    hide MatchesAt;
    if from <= |lines| {
      OccurrencesMatch(lines, texts, from + 1);
      var rest := Occurrences(lines, texts, from + 1);
      if MatchesAt(lines, texts, from) {
        assert Occurrences(lines, texts, from) == [from] + rest;
        hide Occurrences;
        forall p | from <= p && MatchesAt(lines, texts, p) ensures p in [from] + rest {
          assert p == from || p in rest;
        }
      }
    } else {
      NotPastTheEnd(lines, texts, from);
    }
  }

  lemma NotPastTheEnd(lines: seq<Line>, texts: seq<string>, from: nat)
    requires from > |lines|
    ensures forall p | from <= p :: !MatchesAt(lines, texts, p)
  {
  }

  // ---------- a whole patch ----------

  /** The first `n` hunks applied in order. The running shift of the header
      positions is how much the text has grown so far. */
  function PatchedBy(lines: seq<Line>, hunks: seq<Hunk>, usual: Ending, n: nat): Result<seq<Line>, Failure>
    requires n <= |hunks|
  {
    if n == 0 then Ok(lines)
    else
      match PatchedBy(lines, hunks, usual, n - 1)
      case Err(e) => Err(e)
      case Ok(now) =>
        match PatchedOnce(now, hunks[n - 1], |now| - |lines|, usual)
        case Err(reason) => Err(Failure(n, reason))
        case Ok(next) => Ok(next)
  }

  lemma {:induction false} FailureStays(lines: seq<Line>, hunks: seq<Hunk>, usual: Ending, n: nat, m: nat)
    requires n <= m <= |hunks| && PatchedBy(lines, hunks, usual, n).Err?
    ensures PatchedBy(lines, hunks, usual, m) == PatchedBy(lines, hunks, usual, n)
  {
    if n < m {
      FailureStays(lines, hunks, usual, n, m - 1);
    }
  }

  lemma OneMore(lines: seq<Line>, hunks: seq<Hunk>, usual: Ending, n: nat, now: seq<Line>)
    requires n < |hunks| && PatchedBy(lines, hunks, usual, n) == Ok(now)
    ensures var next, r := PatchedOnce(now, hunks[n], |now| - |lines|, usual), PatchedBy(lines, hunks, usual, n + 1);
            && (next.Ok? ==> r == Ok(next.value))
            && (next.Err? ==> r == Err(Failure(n + 1, next.error)))
  {
    hide PatchedOnce;
  }

  function PatchedOnce(lines: seq<Line>, hunk: Hunk, shift: int, usual: Ending): Result<seq<Line>, Reason> {
    match Place(lines, hunk, shift)
    case Err(reason) => Err(reason)
    case Ok(at) =>
      PlaceMatches(lines, hunk, shift);
      Ok(Patched(lines, hunk, at, usual))
  }

  lemma PlaceMatches(lines: seq<Line>, hunk: Hunk, shift: int)
    ensures var p := Place(lines, hunk, shift);
            p.Ok? ==> MatchesAt(lines, OldTexts(hunk.lines), p.value)
  {
    OccurrencesMatch(lines, OldTexts(hunk.lines), 0);
  }

  /** Every line before the last gets an ending if it has none. */
  function Closed(lines: seq<Line>, usual: Ending): (now: seq<Line>)
    ensures |now| == |lines|
  {
    seq(|lines|, k requires 0 <= k < |lines| =>
      if k + 1 < |lines| && lines[k].ending.None? then Line(lines[k].text, Some(usual)) else lines[k])
  }

  function Applied(text: string, patch: FilePatch): Result<string, HunkError> {
    var lines := Split(text);
    var usual := UsualEnding(lines);
    match PatchedBy(lines, patch.hunks, usual, |patch.hunks|)
    case Err(e) => Err(HunkError(patch.Path(), e))
    case Ok(now) => Ok(Join(Closed(now, usual)))
  }

  method FindPlace(lines: seq<Line>, hunk: Hunk, shift: int) returns (r: Result<nat, Reason>)
    ensures r == Place(lines, hunk, shift)
  {
    var texts := OldTexts(hunk.lines);
    var expected := HeaderAt(hunk, shift);
    if texts == [] && expected > |lines| {
      return Err(InsertsPastEnd(expected, |lines|));
    }
    if MatchesAt(lines, texts, expected) {
      return Ok(expected);
    }
    var found := FirstOccurrences(lines, texts);
    if |found| == 1 {
      return Ok(found[0]);
    }
    if found == [] {
      return Err(Mismatch(lines, texts, expected, 0));
    }
    return Err(Ambiguous);
  }

  /** At most the first two occurrences: more do not matter. */
  method FirstOccurrences(lines: seq<Line>, texts: seq<string>) returns (found: seq<nat>)
    ensures var all := Occurrences(lines, texts, 0);
            found == all || (|found| == 2 && |all| >= 2)
  {
    var last := if |texts| <= |lines| then |lines| - |texts| else 0;
    hide MatchesAt;
    found := [];
    var at: nat := 0;
    while at <= last && |found| < 2
      invariant 0 <= at <= last + 1
      invariant |found| <= 2
      invariant Occurrences(lines, texts, 0) == found + Occurrences(lines, texts, at)
    {
      if MatchesAt(lines, texts, at) {
        found := found + [at];
      }
      at := at + 1;
    }
    if |found| < 2 {
      NoneLeft(lines, texts, at);
    }
  }

  lemma {:induction false} NoneLeft(lines: seq<Line>, texts: seq<string>, from: nat)
    requires from + |texts| > |lines|
    ensures Occurrences(lines, texts, from) == []
    decreases |lines| + 1 - from
  {
    if from <= |lines| {
      NoneLeft(lines, texts, from + 1);
    }
  }

  /** The lines that replace `region`, one hunk line at a time. */
  method Replacement(lines: seq<string>, region: seq<Line>, ending: Ending) returns (now: seq<Line>)
    requires |region| == |OldTexts(lines)|
    ensures now == NewLines(lines, region, ending)
  {
    hide NewLines, OldTexts, NewTexts;
    now := [];
    var original, rest := region, lines;
    while rest != []
      invariant |original| == |OldTexts(rest)|
      invariant NewLines(lines, region, ending) == now + NewLines(rest, original, ending)
      decreases |rest|
    {
      NewLinesFirst(rest, original, ending);
      Regroup(now, NewLine(rest, original, ending), NewLines(rest[1..], RegionLeft(rest, original), ending));
      var noNewline := |rest| > 1 && IsNoNewline(rest[1]);
      if Marked(rest[0], ' ') {
        now := now + [Line(original[0].text, if noNewline then None else original[0].ending)];
        original := original[1..];
      } else if Marked(rest[0], '-') {
        original := original[1..];
      } else if Marked(rest[0], '+') {
        now := now + [Line(rest[0][1..], if noNewline then None else Some(ending))];
      }
      rest := rest[1..];
    }
    NoNewLines(original, ending);
  }

  lemma NoNewLines(region: seq<Line>, ending: Ending)
    requires |region| == |OldTexts([])|
    ensures NewLines([], region, ending) == []
  {
  }

  lemma NewLinesFirst(lines: seq<string>, region: seq<Line>, ending: Ending)
    requires lines != [] && |region| == |OldTexts(lines)|
    ensures Marked(lines[0], ' ') || Marked(lines[0], '-') ==> region != []
    ensures NewLines(lines, region, ending) ==
            NewLine(lines, region, ending) + NewLines(lines[1..], RegionLeft(lines, region), ending)
  {
  }

  method ApplyHunk(lines: seq<Line>, hunk: Hunk, shift: int, usual: Ending) returns (r: Result<seq<Line>, Reason>)
    ensures r == PatchedOnce(lines, hunk, shift, usual)
  {
    var place := FindPlace(lines, hunk, shift);
    if place.Err? {
      return Err(place.error);
    }
    PlaceMatches(lines, hunk, shift);
    var at, end := place.value, place.value + |OldTexts(hunk.lines)|;
    var region := lines[at..end];
    var added := Replacement(hunk.lines, region, RegionEnding(region, Last(lines[..at]), usual));
    return Ok(lines[..at] + added + lines[end..]);
  }

  method ApplyHunks(start: seq<Line>, hunks: seq<Hunk>, usual: Ending) returns (r: Result<seq<Line>, Failure>)
    ensures r == PatchedBy(start, hunks, usual, |hunks|)
  {
    hide PatchedOnce;
    var lines := start;
    var shift := 0;
    var number: nat := 0;
    while number < |hunks|
      invariant 0 <= number <= |hunks|
      invariant shift == |lines| - |start|
      invariant PatchedBy(start, hunks, usual, number) == Ok(lines)
    {
      var now := ApplyHunk(lines, hunks[number], shift, usual);
      OneMore(start, hunks, usual, number, lines);
      if now.Err? {
        FailureStays(start, hunks, usual, number + 1, |hunks|);
        return Err(Failure(number + 1, now.error));
      }
      shift := shift + |now.value| - |lines|;
      lines := now.value;
      number := number + 1;
    }
    return Ok(lines);
  }

  method ApplyPatch(text: string, patch: FilePatch) returns (r: Result<string, HunkError>)
    ensures r == Applied(text, patch)
  {
    var lines := SplitLines(text);
    var usual := UsualEnding(lines);
    var now := ApplyHunks(lines, patch.hunks, usual);
    if now.Err? {
      return Err(HunkError(patch.Path(), now.error));
    }
    var out := JoinLines(Closed(now.value, usual));
    return Ok(out);
  }

  method JoinLines(lines: seq<Line>) returns (out: string)
    ensures out == Join(lines)
  {
    out := "";
    var k := 0;
    while k < |lines|
      invariant 0 <= k <= |lines|
      invariant Join(lines) == out + Join(lines[k..])
    {
      assert lines[k..][1..] == lines[k + 1..];
      out := out + lines[k].Text();
      k := k + 1;
    }
  }
}
