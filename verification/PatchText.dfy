/** Unified diff text: reading it into patches and printing patches as text. */
module PatchText {
  import opened Base
  import opened Patches

  datatype ParseReason =
    | NoPlusLine
    | MovesFile(from: string, to: string)
    | MalformedHeader
    | BadHunkLine
    | ShortHunk
    | NoHunks
    | NoFileHeader

  /** What a diff may ask for that is refused. */
  datatype Refusal = BinaryFile | Renames | ChangesMode | NothingToApply

  datatype ParseError =
    | ParseError(line: nat, reason: ParseReason)
    | Unsupported(path: string, what: Refusal)

  // ---------- strings ----------

  function StripPrefix(text: string, prefix: string): Option<string> {
    if prefix <= text then Some(text[|prefix|..]) else None
  }

  /** Where `part` first occurs in `text`. */
  function Find(text: string, part: string): (i: Option<nat>)
    ensures i.Some? ==> i.value + |part| <= |text| && part <= text[i.value..]
  {
    if part <= text then Some(0)
    else if text == "" then None
    else
      var i := Find(text[1..], part);
      if i.Some? then Some(i.value + 1) else None
  }

  /** Where `part` last occurs in `text`. */
  function FindLast(text: string, part: string): (i: Option<nat>)
    ensures i.Some? ==> i.value + |part| <= |text| && part <= text[i.value..]
  {
    if text == "" then (if part == "" then Some(0) else None)
    else
      var i := FindLast(text[1..], part);
      if i.Some? then Some(i.value + 1)
      else if part <= text then Some(0)
      else None
  }

  function UpTo(text: string, c: char): string {
    var i := IndexOf(text, c);
    if i.Some? then text[..i.value] else text
  }

  function After(text: string, c: char): Option<string> {
    var i := IndexOf(text, c);
    if i.Some? then Some(text[i.value + 1..]) else None
  }

  function TrimEnd(text: string): string {
    if text != "" && Whitespace(text[|text| - 1]) then TrimEnd(text[..|text| - 1]) else text
  }

  function Digits(text: string): Option<nat>
    decreases |text|
  {
    if text == "" then Some(0)
    else
      var front, last := Digits(text[..|text| - 1]), text[|text| - 1];
      if front.Some? && Digit(last) then Some(front.value * 10 + (last - '0') as nat) else None
  }

  /** A number as the standard library reads one: digits, perhaps after a `+`. */
  function Number(text: string): Option<nat> {
    var digits := if text != "" && text[0] == '+' then text[1..] else text;
    if digits == "" then None else Digits(digits)
  }

  // ---------- headers ----------

  function HeaderPath(raw: string): Option<string> {
    var path := TrimEnd(UpTo(raw, '\t'));
    if path == "/dev/null" then None
    else if StripPrefix(path, "a/").Some? then StripPrefix(path, "a/")
    else if StripPrefix(path, "b/").Some? then StripPrefix(path, "b/")
    else Some(path)
  }

  /** `start,count` after the given sign, the count 1 when left out. */
  function Range(part: string, sign: string): Option<(nat, nat)> {
    var numbers := StripPrefix(part, sign);
    if numbers.None? then None
    else
      var start := Number(UpTo(numbers.value, ','));
      var rest := After(numbers.value, ',');
      var count := if rest.Some? then Number(rest.value) else Some(1);
      if start.Some? && count.Some? then Some((start.value, count.value)) else None
  }

  datatype Header = Header(oldStart: nat, oldLines: nat, newStart: nat, newLines: nat)

  function HunkHeader(line: string): Option<Header> {
    var inner := StripPrefix(line, "@@ ");
    if inner.None? || Find(inner.value, " @@").None? then None
    else
      var ranges := inner.value[..Find(inner.value, " @@").value];
      var second := After(ranges, ' ');
      var was := Range(UpTo(ranges, ' '), "-");
      var now := if second.Some? then Range(UpTo(second.value, ' '), "+") else None;
      if was.Some? && now.Some? then Some(Header(was.value.0, was.value.1, now.value.0, now.value.1)) else None
  }

  // ---------- parsing ----------

  /** The lines of a text, without their endings. */
  function TextLines(text: string): seq<string> {
    Texts(Split(text))
  }

  predicate BodyLine(line: string) {
    line == "" || Marked(line, ' ') || Marked(line, '-') || Marked(line, '+') || Marked(line, '\\')
  }

  predicate Counts(line: string, c: char) {
    line == "" || Marked(line, ' ') || Marked(line, c)
  }

  /** The lines of a hunk's body and what follows them. `rest` starts at line
      number `at`, counted from zero. */
  function Body(rest: seq<string>, at: nat, h: Header, oldSeen: nat, newSeen: nat)
    : (r: Result<(seq<string>, seq<string>), ParseError>)
    ensures r.Ok? ==> |r.value.0| + |r.value.1| == |rest|
  {
    if rest != [] && (oldSeen < h.oldLines || newSeen < h.newLines || IsNoNewline(rest[0])) then
      if !BodyLine(rest[0]) then Err(ParseError(at + 1, BadHunkLine))
      else
        var more := Body(rest[1..], at + 1, h, oldSeen + if Counts(rest[0], '-') then 1 else 0,
                                              newSeen + if Counts(rest[0], '+') then 1 else 0);
        if more.Err? then more
        else Ok(([if rest[0] == "" then " " else rest[0]] + more.value.0, more.value.1))
    else if oldSeen != h.oldLines || newSeen != h.newLines then Err(ParseError(at + 1, ShortHunk))
    else Ok(([], rest))
  }

  function HunkOf(h: Header, lines: seq<string>): Hunk {
    Hunk(h.oldStart, h.oldLines, h.newStart, h.newLines, lines)
  }

  /** One hunk, from its header line on. */
  function OneHunk(rest: seq<string>, at: nat): (r: Result<(Hunk, seq<string>), ParseError>)
    requires rest != []
    ensures r.Ok? ==> |r.value.1| < |rest|
  {
    var h := HunkHeader(rest[0]);
    if h.None? then Err(ParseError(at + 1, MalformedHeader))
    else
      var body := Body(rest[1..], at + 1, h.value, 0, 0);
      if body.Err? then Err(body.error)
      else Ok((HunkOf(h.value, body.value.0), body.value.1))
  }

  predicate StartsHunk(line: string) {
    "@@" <= line
  }

  function Hunks(rest: seq<string>, at: nat): (r: Result<(seq<Hunk>, seq<string>), ParseError>)
    ensures r.Ok? ==> |r.value.1| <= |rest|
    decreases |rest|
  {
    if rest == [] || !StartsHunk(rest[0]) then Ok(([], rest))
    else
      var one := OneHunk(rest, at);
      if one.Err? then Err(one.error)
      else
        var more := Hunks(one.value.1, at + |rest| - |one.value.1|);
        if more.Err? then more else Ok(([one.value.0] + more.value.0, more.value.1))
  }

  /** One file's section, from its `---` line on. */
  function FileSection(rest: seq<string>, at: nat): (r: Result<(FilePatch, seq<string>), ParseError>)
    requires rest != [] && "--- " <= rest[0]
    ensures r.Ok? ==> |r.value.1| < |rest|
  {
    var oldPath := HeaderPath(rest[0][4..]);
    if |rest| < 2 || !("+++ " <= rest[1]) then Err(ParseError(at + 2, NoPlusLine))
    else
      var newPath := HeaderPath(rest[1][4..]);
      if oldPath.Some? && newPath.Some? && oldPath != newPath then
        Err(ParseError(at + 1, MovesFile(oldPath.value, newPath.value)))
      else
        var hunks := Hunks(rest[2..], at + 2);
        if hunks.Err? then Err(hunks.error)
        else if hunks.value.0 == [] then Err(ParseError(at + 3, NoHunks))
        else Ok((FilePatch(oldPath, newPath, hunks.value.0), hunks.value.1))
  }

  predicate Binary(line: string) {
    "Binary files " <= line || line == "GIT binary patch"
  }

  function TrimStart(text: string, prefix: string): string
    requires prefix != ""
    decreases |text|
  {
    if prefix <= text then TrimStart(text[|prefix|..], prefix) else text
  }

  /** The lines of a `diff --git` section before its `---` line. */
  function GitHeader(rest: seq<string>): (header: seq<string>)
    ensures |header| <= |rest|
  {
    if rest == [] || EndsGitHeader(rest[0]) then []
    else [rest[0]] + GitHeader(rest[1..])
  }

  predicate EndsGitHeader(line: string) {
    "--- " <= line || "diff --git " <= line
  }

  predicate RenameLine(line: string) {
    "rename " <= line || "copy " <= line || "similarity index" <= line
  }

  predicate ModeLine(line: string) {
    "old mode" <= line || "new mode" <= line
  }

  function GitRefusal(header: seq<string>): Option<Refusal> {
    if header == [] then None
    else if RenameLine(header[0]) then Some(Renames)
    else if ModeLine(header[0]) then Some(ChangesMode)
    else if Binary(header[0]) then Some(BinaryFile)
    else GitRefusal(header[1..])
  }

  predicate CreatesFile(line: string) {
    "new file mode" <= line
  }

  predicate DeletesFile(line: string) {
    "deleted file mode" <= line
  }

  predicate AnyCreates(header: seq<string>) {
    exists k | 0 <= k < |header| :: CreatesFile(header[k])
  }

  predicate AnyDeletes(header: seq<string>) {
    exists k | 0 <= k < |header| :: DeletesFile(header[k])
  }

  /** The path a `diff --git` line names: what follows its last ` b/`. */
  function GitPath(names: string): string {
    var i := FindLast(names, " b/");
    if i.Some? then names[i.value + 3..] else names
  }

  function GitOldPath(names: string): string {
    var rest := StripPrefix(names, "a/");
    if rest.Some? && Find(rest.value, " b/").Some? then rest.value[..Find(rest.value, " b/").value]
    else GitPath(names)
  }

  /** A `diff --git` line and its header lines: the file patch they make on their
      own, if any, and what follows. */
  function GitSection(rest: seq<string>): (r: Result<(Option<FilePatch>, seq<string>), ParseError>)
    requires rest != [] && "diff --git " <= rest[0]
    ensures r.Ok? ==> |r.value.1| < |rest|
  {
    var names := rest[0][11..];
    var path, header := GitPath(names), GitHeader(rest[1..]);
    var tail := rest[1 + |header|..];
    if GitRefusal(header).Some? then Err(Unsupported(path, GitRefusal(header).value))
    else if tail != [] && "--- " <= tail[0] then Ok((None, tail))
    else if AnyCreates(header) then Ok((Some(FilePatch(None, Some(path), [])), tail))
    else if AnyDeletes(header) then Ok((Some(FilePatch(Some(GitOldPath(names)), None, [])), tail))
    else Err(Unsupported(path, NothingToApply))
  }

  function Sections(rest: seq<string>, at: nat): Result<seq<FilePatch>, ParseError>
    decreases |rest|
  {
    if rest == [] then Ok([])
    else if Binary(rest[0]) then Err(Unsupported(TrimStart(rest[0], "Binary files "), BinaryFile))
    else if "diff --git " <= rest[0] then
      match GitSection(rest)
      case Err(e) => Err(e)
      case Ok((patch, tail)) =>
        var more := Sections(tail, at + |rest| - |tail|);
        if more.Err? || patch.None? then more else Ok([patch.value] + more.value)
    else if !("--- " <= rest[0]) then Sections(rest[1..], at + 1)
    else
      match FileSection(rest, at)
      case Err(e) => Err(e)
      case Ok((patch, tail)) =>
        var more := Sections(tail, at + |rest| - |tail|);
        if more.Err? then more else Ok([patch] + more.value)
  }

  function Parsed(text: string): Result<seq<FilePatch>, ParseError> {
    var patches := Sections(TextLines(text), 0);
    if patches == Ok([]) then Err(ParseError(1, NoFileHeader)) else patches
  }

  // ---------- printing ----------

  function PathText(path: Option<string>, prefix: string): string {
    if path.Some? then prefix + path.value else "/dev/null"
  }

  function RangeText(sign: string, start: nat, count: nat): string {
    sign + Decimal(start) + "," + Decimal(count)
  }

  function HeaderText(h: Hunk): string {
    "@@ " + (RangeText("-", h.oldStart, h.oldLines) + " " + RangeText("+", h.newStart, h.newLines) + " @@")
  }

  function HunkText(hunks: seq<Hunk>): seq<string> {
    if hunks == [] then [] else [HeaderText(hunks[0])] + hunks[0].lines + HunkText(hunks[1..])
  }

  function FileText(file: FilePatch): seq<string> {
    ["--- " + PathText(file.oldPath, "a/"), "+++ " + PathText(file.newPath, "b/")] + HunkText(file.hunks)
  }

  function FilesText(files: seq<FilePatch>): seq<string> {
    if files == [] then [] else FileText(files[0]) + FilesText(files[1..])
  }

  function Unlines(lines: seq<string>): string {
    if lines == [] then "" else lines[0] + "\n" + Unlines(lines[1..])
  }

  /** The text of a list of patches. */
  function Formatted(files: seq<FilePatch>): string {
    Unlines(FilesText(files))
  }
}
