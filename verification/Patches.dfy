/** Reading `git diff --full-index --no-renames` text patches by their line counts. */
module Patches {
  import opened Prelude

  const ZERO := "0000000000000000000000000000000000000000"
  const EMPTY_BLOB := "e69de29bb2d1d6434b8b29ae775ad8c2e48c5391"
  const REGULAR: set<string> := {"100644", "100755"}
  const MAX_FILES := 10_000

  const DIFF := "diff --git "
  const INDEX := "index "
  const NEW_FILE := "new file mode "
  const DELETED_FILE := "deleted file mode "

  /** One file section; `pre` or `post` is None where the file is created or deleted. */
  datatype FilePatch = FilePatch(path: string, pre: Option<string>, post: Option<string>, mode: string)

  // ------------------------------------------------------------------ single lines

  /** `_header_path`: the one P of `a/P b/P`. */
  function HeaderPath(rest: string): Option<string> {
    if (rest != "" && rest[0] == '"') || (|rest| - 5) % 2 != 0 || |rest| < 5 then None
    else
      var path := rest[2..2 + (|rest| - 5) / 2];
      if path != "" && rest == "a/" + path + " b/" + path then Some(path) else None
  }

  predicate IsHex(c: char) { '0' <= c <= '9' || 'a' <= c <= 'f' }

  predicate IsId(s: string) { |s| == 40 && forall k :: 0 <= k < 40 ==> IsHex(s[k]) }

  datatype Ids = Ids(pre: string, post: string, mode: Option<string>)

  function IndexTail(mode: Option<string>): string {
    if mode.None? then "" else " " + mode.value
  }

  function IndexLine(ids: Ids): string {
    INDEX + ids.pre + ".." + ids.post + IndexTail(ids.mode)
  }

  /** `_INDEX.fullmatch`. */
  function ParseIndex(line: string): Option<Ids> {
    if |line| < 88 || line[..6] != INDEX || line[46..48] != ".." || !IsId(line[6..46]) || !IsId(line[48..88]) then None
    else if line[88..] == "" then Some(Ids(line[6..46], line[48..88], None))
    else if line[88..] == " 100644" then Some(Ids(line[6..46], line[48..88], Some("100644")))
    else if line[88..] == " 100755" then Some(Ids(line[6..46], line[48..88], Some("100755")))
    else None
  }

  predicate IsDigit(c: char) { '0' <= c <= '9' }

  function DigitRun(s: string): (n: nat)
    ensures n <= |s|
  {
    if s != "" && IsDigit(s[0]) then 1 + DigitRun(s[1..]) else 0
  }

  function Number(ds: string): nat {
    if ds == "" then 0
    else
      var c := ds[|ds| - 1];
      10 * Number(ds[..|ds| - 1]) + if IsDigit(c) then c as nat - '0' as nat else 0
  }

  /** `\d+(?:,(\d+))?`: the count, one when it is left out, and the rest of the line. */
  function ParseCount(s: string): Option<(nat, string)> {
    var start := DigitRun(s);
    if start == 0 then None
    else
      var rest := s[start..];
      var count := if rest != "" && rest[0] == ',' then DigitRun(rest[1..]) else 0;
      if count == 0 then Some((1, rest)) else Some((Number(rest[1..1 + count]), rest[1 + count..]))
  }

  /** `_HUNK.fullmatch`: how many old and new lines a hunk announces. */
  function ParseHunk(line: string): Option<(nat, nat)> {
    if !("@@ -" <= line) then None
    else
      match ParseCount(line[4..])
      case None => None
      case Some((before, more)) =>
        if !(" +" <= more) then None
        else
          match ParseCount(more[2..])
          case None => None
          case Some((after, rest)) =>
            if rest == " @@" || " @@ " <= rest then Some((before, after)) else None
  }

  /** `line.rpartition(" ")`: what stands before and after the last space. */
  function LastSpace(line: string): (k: int)
    ensures -1 <= k < |line|
    ensures k >= 0 ==> line[k] == ' '
  {
    if line == "" then -1
    else if line[|line| - 1] == ' ' then |line| - 1
    else LastSpace(line[..|line| - 1])
  }

  datatype Change = Created(mode: string) | Deleted(mode: string) | Modified

  predicate IsModeLine(line: string) { NEW_FILE <= line || DELETED_FILE <= line }

  /** What a mode line declares; anything before its last word but "new file mode" declares a deletion. */
  function ParseMode(line: string): Option<Change>
    requires IsModeLine(line)
  {
    var k := LastSpace(line);
    if k < 0 || line[k + 1..] !in REGULAR then None
    else if line[..k] == "new file mode" then Some(Created(line[k + 1..]))
    else Some(Deleted(line[k + 1..]))
  }

  /** The entry a change and its ids make, when they fit together. */
  function Entry(path: string, change: Change, ids: Ids): Option<FilePatch> {
    match change
    case Created(mode) =>
      if ids.pre != ZERO || ids.post == ZERO || ids.mode.Some? then None
      else Some(FilePatch(path, None, Some(ids.post), mode))
    case Deleted(mode) =>
      if ids.pre == ZERO || ids.post != ZERO || ids.mode.Some? then None
      else Some(FilePatch(path, Some(ids.pre), None, mode))
    case Modified =>
      if ids.pre == ZERO || ids.post == ZERO || ids.pre == ids.post || ids.mode.None? then None
      else Some(FilePatch(path, Some(ids.pre), Some(ids.post), ids.mode.value))
  }

  function Named(prefix: string, path: string): string {
    prefix + path + if ' ' in path then "\t" else ""
  }

  function BeforeLine(path: string, change: Change): string {
    "--- " + if change.Created? then "/dev/null" else Named("a/", path)
  }

  function AfterLine(path: string, change: Change): string {
    "+++ " + if change.Deleted? then "/dev/null" else Named("b/", path)
  }

  /** Whether a section may go without hunks: an empty file comes or goes. */
  predicate Hunkless(change: Change, ids: Ids) {
    (change.Created? && ids.post == EMPTY_BLOB) || (change.Deleted? && ids.pre == EMPTY_BLOB)
  }

  // ------------------------------------------------------------------ hunks, by their line counts

  /** One body line's effect on the lines still due: None where the parser gives up. */
  function Consume(line: string, old_: nat, new_: nat): Option<(nat, nat)> {
    if line == "" then None
    else if line[0] == ' ' then if old_ > 0 && new_ > 0 then Some((old_ - 1, new_ - 1)) else None
    else if line[0] == '-' then if old_ > 0 then Some((old_ - 1, new_)) else None
    else if line[0] == '+' then if new_ > 0 then Some((old_, new_ - 1)) else None
    else if line[0] == '\\' then Some((old_, new_))
    else None
  }

  /** The lines after a hunk's body. */
  function AfterBody(lines: seq<string>, old_: nat, new_: nat): (rest: Option<seq<string>>)
    ensures rest.Some? ==> |rest.value| <= |lines|
  {
    if old_ == 0 && new_ == 0 then Some(lines)
    else if lines == [] then None
    else
      match Consume(lines[0], old_, new_)
      case None => None
      case Some((o, n)) => AfterBody(lines[1..], o, n)
  }

  predicate IsHunk(lines: seq<string>) { lines != [] && "@@ " <= lines[0] }

  /** A note that a file ends without a newline, if one stands here, is skipped. */
  function SkipNote(lines: seq<string>): (rest: seq<string>)
    ensures |rest| <= |lines|
  {
    if lines != [] && "\\ " <= lines[0] then lines[1..] else lines
  }

  /** The lines after one hunk and its note. */
  function AfterHunk(lines: seq<string>): (rest: Option<seq<string>>)
    requires IsHunk(lines)
    ensures rest.Some? ==> |rest.value| < |lines|
  {
    match ParseHunk(lines[0])
    case None => None
    case Some((o, n)) =>
      match AfterBody(lines[1..], o, n)
      case None => None
      case Some(rest) => Some(SkipNote(rest))
  }

  /** The lines after all the hunks that stand here. */
  function AfterHunks(lines: seq<string>): (rest: Option<seq<string>>)
    ensures rest.Some? ==> |rest.value| <= |lines|
    decreases |lines|
  {
    if !IsHunk(lines) then Some(lines)
    else
      match AfterHunk(lines)
      case None => None
      case Some(rest) => AfterHunks(rest)
  }

  /** `_hunks` needs at least one. */
  function AfterSomeHunks(lines: seq<string>): (rest: Option<seq<string>>)
    ensures rest.Some? ==> |rest.value| < |lines|
  {
    if !IsHunk(lines) then None
    else
      match AfterHunk(lines)
      case None => None
      case Some(rest) => AfterHunks(rest)
  }

  // ------------------------------------------------------------------ sections

  /** A section's mode line, if it has one, and the lines after it. */
  function ParseChange(lines: seq<string>): (r: Option<(Change, seq<string>)>)
    ensures r.Some? ==> |r.value.1| <= |lines|
  {
    if lines == [] || !IsModeLine(lines[0]) then Some((Modified, lines))
    else
      match ParseMode(lines[0])
      case None => None
      case Some(change) => Some((change, lines[1..]))
  }

  /** What follows the index line: the two name lines and the hunks, or nothing. */
  function AfterContent(path: string, change: Change, ids: Ids, lines: seq<string>): (r: Option<seq<string>>)
    ensures r.Some? ==> |r.value| <= |lines|
  {
    if lines != [] && "--- " <= lines[0] then
      if |lines| < 2 || lines[0] != BeforeLine(path, change) || lines[1] != AfterLine(path, change) then None
      else AfterSomeHunks(lines[2..])
    else if Hunkless(change, ids) then Some(lines)
    else None
  }

  function ParseSection(lines: seq<string>): (r: Option<(FilePatch, seq<string>)>)
    requires lines != []
    ensures r.Some? ==> |r.value.1| < |lines|
  {
    if !(DIFF <= lines[0]) then None
    else
      match HeaderPath(lines[0][|DIFF|..])
      case None => None
      case Some(path) =>
        match ParseChange(lines[1..])
        case None => None
        case Some((change, more)) =>
          if more == [] then None
          else
            match ParseIndex(more[0])
            case None => None
            case Some(ids) =>
              match (Entry(path, change, ids), AfterContent(path, change, ids, more[1..]))
              case (Some(entry), Some(rest)) => Some((entry, rest))
              case _ => None
  }

  function Paths(files: seq<FilePatch>): set<string> {
    set f | f in files :: f.path
  }

  function ParseSections(lines: seq<string>, files: seq<FilePatch>): Option<seq<FilePatch>>
    decreases |lines|
  {
    if lines == [] then Some(files)
    else
      match ParseSection(lines)
      case None => None
      case Some((file, rest)) =>
        if file.path in Paths(files) || |files| >= MAX_FILES then None
        else ParseSections(rest, files + [file])
  }

  /** `parse` on decoded text: the sections of an exported patch, or None. */
  function Parse(text: string): Option<seq<FilePatch>> {
    if !(DIFF <= text) || text[|text| - 1] != '\n' then None
    else ParseSections(Split(text[..|text| - 1], '\n'), [])
  }
}
