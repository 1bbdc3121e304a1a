/** The patch parser's own index loops, proved against the suffix functions. */
module PatchLoops {
  import opened Prelude
  import opened Patches

  /** The index the rest of a list starts at, when it is a suffix. */
  ghost predicate At(lines: seq<string>, i: nat, rest: Option<seq<string>>) {
    i <= |lines| && rest == Some(lines[i..])
  }

  /** A hunk's body, by the counts its header announces. */
  method Body(lines: seq<string>, start: nat, oldLines: nat, newLines: nat) returns (next: Option<nat>)
    requires start <= |lines|
    ensures next.None? <==> AfterBody(lines[start..], oldLines, newLines).None?
    ensures next.Some? ==> start <= next.value && At(lines, next.value, AfterBody(lines[start..], oldLines, newLines))
  {
    hide Consume;
    var i, old_, new_ := start, oldLines, newLines;
    while old_ > 0 || new_ > 0
      invariant start <= i <= |lines|
      invariant AfterBody(lines[i..], old_, new_) == AfterBody(lines[start..], oldLines, newLines)
      decreases |lines| - i
    {
      if i >= |lines| {
        return None;
      }
      assert lines[i..][0] == lines[i] && lines[i..][1..] == lines[i + 1..];
      var due := Consume(lines[i], old_, new_);
      if due.None? {
        return None;
      }
      old_, new_ := due.value.0, due.value.1;
      i := i + 1;
    }
    return Some(i);
  }

  lemma NextHunk(lines: seq<string>)
    requires IsHunk(lines)
    ensures AfterSomeHunks(lines) == AfterHunks(lines)
    ensures AfterHunks(lines) == if AfterHunk(lines).None? then None else AfterHunks(AfterHunk(lines).value)
  {
  }

  lemma NoMoreHunks(lines: seq<string>)
    requires !IsHunk(lines)
    ensures AfterHunks(lines) == Some(lines) && AfterSomeHunks(lines).None?
  {
  }

  /** `_hunks`: every index stays in bounds, and the next index is where the hunks end. */
  method Hunks(lines: seq<string>, start: nat) returns (next: Option<nat>)
    requires start <= |lines|
    ensures next.None? <==> AfterSomeHunks(lines[start..]).None?
    ensures next.Some? ==> start < next.value && At(lines, next.value, AfterSomeHunks(lines[start..]))
  {
    hide ParseHunk, AfterBody, AfterHunks, AfterSomeHunks;
    var i, count := start, 0;
    while i < |lines| && "@@ " <= lines[i]
      invariant start <= i <= |lines| && (count == 0 <==> i == start)
      invariant count > 0 ==> AfterSomeHunks(lines[start..]) == AfterHunks(lines[i..])
      decreases |lines| - i
    {
      assert lines[i..][0] == lines[i] && lines[i..][1..] == lines[i + 1..];
      NextHunk(lines[i..]);
      var header := ParseHunk(lines[i]);
      if header.None? {
        return None;
      }
      var end := Body(lines, i + 1, header.value.0, header.value.1);
      if end.None? {
        return None;
      }
      i := end.value;
      if i < |lines| && "\\ " <= lines[i] {
        assert lines[i..][1..] == lines[i + 1..];
        i := i + 1;
      }
      count := count + 1;
    }
    NoMoreHunks(lines[i..]);
    return if count == 0 then None else Some(i);
  }

  /** One section, from its `diff --git` line to the line after it. */
  method Section(lines: seq<string>, start: nat) returns (r: Option<(FilePatch, nat)>)
    requires start < |lines|
    ensures r.None? <==> ParseSection(lines[start..]).None?
    ensures r.Some? ==> start < r.value.1 <= |lines|
                        && ParseSection(lines[start..]) == Some((r.value.0, lines[r.value.1..]))
  {
    hide ParseIndex, HeaderPath, ParseMode, Entry, Hunkless, BeforeLine, AfterLine, AfterSomeHunks;
    ghost var here := lines[start..];
    assert here[0] == lines[start] && here[1..] == lines[start + 1..];
    if !(DIFF <= lines[start]) {
      return None;
    }
    var path := HeaderPath(lines[start][|DIFF|..]);
    if path.None? {
      return None;
    }
    var i, change := start + 1, Modified;
    if i < |lines| && IsModeLine(lines[i]) {
      assert here[1..][1..] == lines[i + 1..];
      var mode := ParseMode(lines[i]);
      if mode.None? {
        return None;
      }
      change := mode.value;
      i := i + 1;
    }
    assert ParseChange(here[1..]) == Some((change, lines[i..]));
    if i >= |lines| {
      return None;
    }
    var ids := ParseIndex(lines[i]);
    if ids.None? {
      return None;
    }
    i := i + 1;
    assert lines[i - 1..][1..] == lines[i..];
    var entry := Entry(path.value, change, ids.value);
    if entry.None? {
      return None;
    }
    var end := Content(lines, i, path.value, change, ids.value);
    return if end.None? then None else Some((entry.value, end.value));
  }

  /** What follows a section's index line. */
  method Content(lines: seq<string>, start: nat, path: string, change: Change, ids: Ids) returns (next: Option<nat>)
    requires start <= |lines|
    ensures next.None? <==> AfterContent(path, change, ids, lines[start..]).None?
    ensures next.Some? ==> start <= next.value && At(lines, next.value, AfterContent(path, change, ids, lines[start..]))
  {
    hide Hunkless, BeforeLine, AfterLine, AfterSomeHunks;
    if start < |lines| && "--- " <= lines[start] {
      var end := if start + 2 <= |lines| then start + 2 else |lines|;
      if lines[start..end] != [BeforeLine(path, change), AfterLine(path, change)] {
        return None;
      }
      assert lines[start..][2..] == lines[start + 2..];
      assert lines[start..][..2] == [lines[start], lines[start + 1]];
      next := Hunks(lines, start + 2);
    } else if Hunkless(change, ids) {
      return Some(start);
    } else {
      return None;
    }
  }

  /** `parse`, from the decoded text: None stands for bytes that are not UTF-8. */
  method ParsePatch(decoded: Option<string>) returns (r: Option<seq<FilePatch>>)
    ensures r == if decoded.None? then None else Parse(decoded.value)
    ensures r.Some? ==> |r.value| == |Paths(r.value)| <= 10_000
  {
    hide ParseSection, Split;
    if decoded.None? {
      return None;
    }
    var text := decoded.value;
    if !(DIFF <= text) || text[|text| - 1] != '\n' {
      return None;
    }
    var lines := Split(text[..|text| - 1], '\n');
    var files: seq<FilePatch> := [];
    var seen: set<string> := {};
    var i := 0;
    while i < |lines|
      invariant 0 <= i <= |lines|
      invariant seen == Paths(files) && |files| == |seen| <= MAX_FILES
      invariant ParseSections(lines[i..], files) == ParseSections(lines, [])
      decreases |lines| - i
    {
      var section := Section(lines, i);
      if section.None? {
        return None;
      }
      var (file, next) := section.value;
      if file.path in seen || |files| >= MAX_FILES {
        return None;
      }
      assert Paths(files + [file]) == seen + {file.path};
      seen := seen + {file.path};
      files := files + [file];
      i := next;
    }
    return Some(files);
  }
}
