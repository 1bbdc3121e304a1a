/**
 * The parser's language as a grammar, and the proof that the parser accepts exactly its renderings
 * and hands back what each section declares. The language contains what Git exports and more: a mode
 * line such as `new file mode x 100644`, which reads as a deletion.
 */
module PatchGrammar {
  import opened Prelude
  import opened Patches

  /** A hunk: its header line, body lines, and an optional note after them. */
  datatype Hunk = Hunk(header: string, body: seq<string>, note: Option<string>)

  /** A section: its path, its mode line if it has one, the ids of its index line, and its hunks. */
  datatype Section = Section(path: string, mode: Option<string>, ids: Ids, hunks: seq<Hunk>)

  /** The body has exactly the announced lines: nothing is left over, and nothing was done before its end. */
  predicate Counted(body: seq<string>, old_: nat, new_: nat) {
    if old_ == 0 && new_ == 0 then body == []
    else
      body != [] && Consume(body[0], old_, new_).Some?
      && var (o, n) := Consume(body[0], old_, new_).value; Counted(body[1..], o, n)
  }

  predicate GoodHunk(h: Hunk) {
    && ParseHunk(h.header).Some?
    && Counted(h.body, ParseHunk(h.header).value.0, ParseHunk(h.header).value.1)
    && (h.note.Some? ==> "\\ " <= h.note.value)
  }

  function ChangeOf(s: Section): Option<Change> {
    match s.mode
    case None => Some(Modified)
    case Some(line) => if IsModeLine(line) then ParseMode(line) else None
  }

  predicate GoodIds(ids: Ids) {
    IsId(ids.pre) && IsId(ids.post) && (ids.mode.Some? ==> ids.mode.value in REGULAR)
  }

  predicate GoodSection(s: Section) {
    && s.path != "" && GoodIds(s.ids)
    && ChangeOf(s).Some?
    && Entry(s.path, ChangeOf(s).value, s.ids).Some?
    && (forall k :: 0 <= k < |s.hunks| ==> GoodHunk(s.hunks[k]))
    && (s.hunks == [] ==> Hunkless(ChangeOf(s).value, s.ids))
  }

  /** What a good section declares. */
  function FileOf(s: Section): FilePatch
    requires GoodSection(s)
  {
    Entry(s.path, ChangeOf(s).value, s.ids).value
  }

  function HunkLines(h: Hunk): seq<string> {
    [h.header] + h.body + if h.note.Some? then [h.note.value] else []
  }

  function HunksLines(hunks: seq<Hunk>): seq<string> {
    if hunks == [] then [] else HunkLines(hunks[0]) + HunksLines(hunks[1..])
  }

  function ContentLines(path: string, change: Change, hunks: seq<Hunk>): seq<string> {
    if hunks == [] then []
    else [BeforeLine(path, change), AfterLine(path, change)] + HunksLines(hunks)
  }

  function DiffLine(path: string): string {
    DIFF + "a/" + path + " b/" + path
  }

  function SectionLines(s: Section): seq<string>
    requires GoodSection(s)
  {
    [DiffLine(s.path)] + (if s.mode.Some? then [s.mode.value] else []) + [IndexLine(s.ids)]
    + ContentLines(s.path, ChangeOf(s).value, s.hunks)
  }

  predicate GoodSections(sections: seq<Section>) {
    forall k :: 0 <= k < |sections| ==> GoodSection(sections[k])
  }

  function Render(sections: seq<Section>): seq<string>
    requires GoodSections(sections)
  {
    if sections == [] then [] else SectionLines(sections[0]) + Render(sections[1..])
  }

  function Files(sections: seq<Section>): (f: seq<FilePatch>)
    requires GoodSections(sections)
    ensures |f| == |sections|
  {
    seq(|sections|, i requires 0 <= i < |sections| => FileOf(sections[i]))
  }

  // ------------------------------------------------------------------ single lines

  /** `_header_path` finds exactly the path that stands on both sides. */
  lemma HeaderPathExact(rest: string, path: string)
    ensures HeaderPath(rest) == Some(path) <==> path != "" && rest == "a/" + path + " b/" + path
  {
    if rest == "a/" + path + " b/" + path {
      assert |rest| == 5 + 2 * |path|;
      assert rest[0] == 'a';
      assert rest[2..2 + |path|] == path;
    }
  }

  lemma IndexRoundTrip(ids: Ids)
    requires GoodIds(ids)
    ensures ParseIndex(IndexLine(ids)) == Some(ids)
  {
    hide IsId;
    assert |ids.pre| == 40 && |ids.post| == 40 by { IdLength(ids.pre); IdLength(ids.post); }
    Joined(INDEX, ids.pre, "..", ids.post, IndexTail(ids.mode));
    TailReads(ids.mode);
  }

  lemma IdLength(s: string)
    requires IsId(s)
    ensures |s| == 40
  {
  }

  lemma TailReads(mode: Option<string>)
    requires mode.Some? ==> mode.value in REGULAR
    ensures mode == if IndexTail(mode) == "" then None else Some(IndexTail(mode)[1..])
    ensures IndexTail(mode) in ["", " 100644", " 100755"]
  {
    assert mode.Some? ==> (" " + mode.value)[1..] == mode.value;
    assert " " + "100644" == " 100644" && " " + "100755" == " 100755";
  }

  lemma Joined(a: string, b: string, c: string, d: string, e: string)
    requires |a| == 6 && |b| == 40 && |c| == 2 && |d| == 40
    ensures var s := a + b + c + d + e;
      |s| >= 88 && s[..6] == a && s[6..46] == b && s[46..48] == c && s[48..88] == d && s[88..] == e
  {
  }

  lemma Pieces(line: string)
    requires |line| >= 88
    ensures line[..6] + line[6..46] + line[46..48] + line[48..88] + line[88..] == line
  {
  }

  lemma IndexExact(line: string)
    requires ParseIndex(line).Some?
    ensures GoodIds(ParseIndex(line).value) && IndexLine(ParseIndex(line).value) == line
  {
    hide IsId;
    var ids := ParseIndex(line).value;
    Pieces(line);
    assert line[88..] == IndexTail(ids.mode);
  }

  lemma ModeLineHead(line: string)
    requires IsModeLine(line)
    ensures line[0] == 'n' || line[0] == 'd'
  {
  }

  lemma IndexLineHead(ids: Ids)
    ensures !IsModeLine(IndexLine(ids))
  {
    assert IndexLine(ids)[0] == 'i';
    if IsModeLine(IndexLine(ids)) { ModeLineHead(IndexLine(ids)); }
  }

  // ------------------------------------------------------------------ hunks

  lemma {:induction false} BodyReads(body: seq<string>, rest: seq<string>, old_: nat, new_: nat)
    requires Counted(body, old_, new_)
    ensures AfterBody(body + rest, old_, new_) == Some(rest)
    decreases |body|
  {
    hide Consume;
    if old_ == 0 && new_ == 0 {
      assert body + rest == rest;
    } else {
      var (o, n) := Consume(body[0], old_, new_).value;
      BodyReads(body[1..], rest, o, n);
      assert (body + rest)[1..] == body[1..] + rest;
    }
  }

  lemma {:induction false} BodyExact(lines: seq<string>, old_: nat, new_: nat) returns (body: seq<string>)
    requires AfterBody(lines, old_, new_).Some?
    ensures Counted(body, old_, new_) && lines == body + AfterBody(lines, old_, new_).value
    decreases |lines|
  {
    hide Consume;
    if old_ == 0 && new_ == 0 {
      body := [];
    } else {
      var (o, n) := Consume(lines[0], old_, new_).value;
      var more := BodyExact(lines[1..], o, n);
      body := [lines[0]] + more;
      assert body[1..] == more && lines == [lines[0]] + lines[1..];
    }
  }

  lemma HunkHeader(h: Hunk)
    requires GoodHunk(h)
    ensures "@@ " <= h.header && h.header[0] == '@'
    ensures HunkLines(h) != [] && HunkLines(h)[0] == h.header
  {
  }

  predicate NoNote(lines: seq<string>) { lines == [] || lines[0] == "" || lines[0][0] != '\\' }

  lemma HunkReads(h: Hunk, more: seq<string>)
    requires GoodHunk(h) && NoNote(more)
    ensures IsHunk(HunkLines(h) + more) && AfterHunk(HunkLines(h) + more) == Some(more)
  {
    hide ParseHunk, AfterBody, Counted;
    var note := if h.note.Some? then [h.note.value] else [];
    var lines := HunkLines(h) + more;
    HunkHeader(h);
    BodyReads(h.body, note + more, ParseHunk(h.header).value.0, ParseHunk(h.header).value.1);
    assert lines[0] == h.header;
    assert lines[1..] == h.body + (note + more);
    if h.note.Some? {
      assert (note + more)[1..] == more;
    } else {
      assert note + more == more;
    }
  }

  lemma HunkExact(lines: seq<string>) returns (h: Hunk)
    requires IsHunk(lines) && AfterHunk(lines).Some?
    ensures GoodHunk(h) && lines == HunkLines(h) + AfterHunk(lines).value
  {
    hide ParseHunk, AfterBody, Counted;
    var (o, n) := ParseHunk(lines[0]).value;
    var body := BodyExact(lines[1..], o, n);
    var after := AfterBody(lines[1..], o, n).value;
    assert lines == [lines[0]] + lines[1..];
    if after != [] && "\\ " <= after[0] {
      assert after == [after[0]] + after[1..];
      h := Hunk(lines[0], body, Some(after[0]));
    } else {
      h := Hunk(lines[0], body, None);
    }
  }

  /** No line that may follow a section can be taken for part of it. */
  predicate Ends(rest: seq<string>) { rest == [] || DIFF <= rest[0] }

  lemma EndsPlainly(rest: seq<string>)
    requires Ends(rest)
    ensures NoNote(rest) && !IsHunk(rest) && (rest != [] ==> !("--- " <= rest[0]))
  {
  }

  lemma {:induction false} HunksRead(hunks: seq<Hunk>, rest: seq<string>)
    requires (forall k :: 0 <= k < |hunks| ==> GoodHunk(hunks[k])) && Ends(rest)
    ensures AfterHunks(HunksLines(hunks) + rest) == Some(rest)
    ensures hunks != [] ==> AfterSomeHunks(HunksLines(hunks) + rest) == Some(rest)
  {
    hide AfterHunk, GoodHunk, Ends, HunkLines, IsHunk, NoNote;
    EndsPlainly(rest);
    if hunks == [] {
      assert HunksLines(hunks) + rest == rest;
    } else {
      var more := HunksLines(hunks[1..]) + rest;
      assert HunksLines(hunks) + rest == HunkLines(hunks[0]) + more;
      HunksRead(hunks[1..], rest);
      HunksStart(hunks[1..], rest);
      HunkReads(hunks[0], more);
    }
  }

  /** Neither hunks nor what may follow them start with a note. */
  lemma HunksStart(hunks: seq<Hunk>, rest: seq<string>)
    requires (forall k :: 0 <= k < |hunks| ==> GoodHunk(hunks[k])) && Ends(rest)
    ensures NoNote(HunksLines(hunks) + rest)
  {
    hide GoodHunk, HunkLines, Ends, IsHunk;
    EndsPlainly(rest);
    if hunks == [] {
      assert HunksLines(hunks) + rest == rest;
    } else {
      HunkHeader(hunks[0]);
      assert HunksLines(hunks) == HunkLines(hunks[0]) + HunksLines(hunks[1..]);
      hide HunksLines;
      assert (HunksLines(hunks) + rest)[0] == hunks[0].header;
    }
  }

  lemma {:induction false} HunksExact(lines: seq<string>) returns (hunks: seq<Hunk>)
    requires AfterHunks(lines).Some?
    ensures forall k :: 0 <= k < |hunks| ==> GoodHunk(hunks[k])
    ensures lines == HunksLines(hunks) + AfterHunks(lines).value
    ensures hunks == [] <==> !IsHunk(lines)
    decreases |lines|
  {
    hide AfterHunk, GoodHunk, HunkLines;
    if !IsHunk(lines) {
      hunks := [];
    } else {
      var h := HunkExact(lines);
      var more := HunksExact(AfterHunk(lines).value);
      hunks := [h] + more;
      assert hunks[1..] == more;
    }
  }

  // ------------------------------------------------------------------ sections

  lemma ContentOfHunks(path: string, change: Change, ids: Ids, body: seq<string>, rest: seq<string>)
    requires AfterSomeHunks(body) == Some(rest)
    ensures AfterContent(path, change, ids, [BeforeLine(path, change), AfterLine(path, change)] + body) == Some(rest)
  {
  }

  lemma NoContentReads(path: string, change: Change, ids: Ids, rest: seq<string>)
    requires Ends(rest) && Hunkless(change, ids)
    ensures AfterContent(path, change, ids, rest) == Some(rest)
  {
    hide Hunkless, AfterSomeHunks, BeforeLine, AfterLine;
    EndsPlainly(rest);
  }

  lemma ContentGroups(path: string, change: Change, hunks: seq<Hunk>, rest: seq<string>)
    ensures ContentLines(path, change, hunks) + rest
      == if hunks == [] then rest else [BeforeLine(path, change), AfterLine(path, change)] + (HunksLines(hunks) + rest)
  {
  }

  lemma ContentReads(path: string, change: Change, ids: Ids, hunks: seq<Hunk>, rest: seq<string>)
    requires Ends(rest) && (forall k :: 0 <= k < |hunks| ==> GoodHunk(hunks[k]))
    requires hunks == [] ==> Hunkless(change, ids)
    ensures AfterContent(path, change, ids, ContentLines(path, change, hunks) + rest) == Some(rest)
  {
    hide Hunkless, AfterContent, ContentLines, GoodHunk, Ends;
    if hunks == [] {
      NoContentReads(path, change, ids, rest);
      ContentGroups(path, change, hunks, rest);
    } else {
      HunksRead(hunks, rest);
      ContentOfHunks(path, change, ids, HunksLines(hunks) + rest, rest);
      ContentGroups(path, change, hunks, rest);
    }
  }

  lemma SectionReads(s: Section, rest: seq<string>)
    requires GoodSection(s) && Ends(rest)
    ensures ParseSection(SectionLines(s) + rest) == Some((FileOf(s), rest))
  {
    hide Entry, AfterContent, ContentLines, ParseIndex, IndexLine, HeaderPath, GoodIds, GoodHunk, Hunkless, ParseMode;
    var lines := SectionLines(s) + rest;
    var content := ContentLines(s.path, ChangeOf(s).value, s.hunks) + rest;
    var mode := if s.mode.Some? then [s.mode.value] else [];
    var header := DiffLine(s.path)[|DIFF|..];
    assert header == "a/" + s.path + " b/" + s.path;
    HeaderPathExact(header, s.path);
    IndexRoundTrip(s.ids);
    IndexLineHead(s.ids);
    ContentReads(s.path, ChangeOf(s).value, s.ids, s.hunks, rest);
    assert lines[1..] == mode + ([IndexLine(s.ids)] + content);
    if s.mode.Some? {
      assert lines[1..][1..] == [IndexLine(s.ids)] + content;
    } else {
      assert lines[1..] == [IndexLine(s.ids)] + content;
    }
    assert ([IndexLine(s.ids)] + content)[1..] == content;
  }

  lemma SectionExact(lines: seq<string>) returns (s: Section)
    requires lines != [] && ParseSection(lines).Some?
    ensures GoodSection(s) && FileOf(s) == ParseSection(lines).value.0
    ensures lines == SectionLines(s) + ParseSection(lines).value.1
  {
    hide Entry, AfterContent, ParseIndex, HeaderPath, Hunkless, ParseMode, GoodHunk, GoodIds, IndexLine,
      ContentLines, IsModeLine;
    var rest := lines[0][|DIFF|..];
    var path := HeaderPath(rest).value;
    HeaderPathExact(rest, path);
    assert lines[0] == DiffLine(path);
    var (change, more) := ParseChange(lines[1..]).value;
    var mode := if more == lines[1..] then None else Some(lines[1]);
    var ids := ParseIndex(more[0]).value;
    IndexExact(more[0]);
    var hunks := ContentExact(path, change, ids, more[1..]);
    s := Section(path, mode, ids, hunks);
    assert ChangeOf(s) == Some(change);
    var after := ParseSection(lines).value.1;
    assert more == [more[0]] + more[1..];
    assert lines == [lines[0]] + lines[1..];
    if mode.Some? { assert lines[1..] == [lines[1]] + more; }
  }

  lemma ContentExact(path: string, change: Change, ids: Ids, lines: seq<string>) returns (hunks: seq<Hunk>)
    requires AfterContent(path, change, ids, lines).Some?
    ensures forall k :: 0 <= k < |hunks| ==> GoodHunk(hunks[k])
    ensures hunks == [] ==> Hunkless(change, ids)
    ensures lines == ContentLines(path, change, hunks) + AfterContent(path, change, ids, lines).value
  {
    hide Hunkless, AfterHunk, GoodHunk, Named;
    if lines != [] && "--- " <= lines[0] {
      hunks := HunksExact(lines[2..]);
      assert lines == [lines[0], lines[1]] + lines[2..];
    } else {
      hunks := [];
    }
  }

  // ------------------------------------------------------------------ the text of a section

  const NO_FILE := "0000000000000000000000000000000000000000"

  /** An id as a section records it: forty lower-case hexadecimal digits, of a file that exists. */
  predicate Recorded(id: string) {
    |id| == 40 && id != NO_FILE && forall k :: 0 <= k < 40 ==> '0' <= id[k] <= '9' || 'a' <= id[k] <= 'f'
  }

  predicate FileMode(mode: string) { mode == "100644" || mode == "100755" }

  /** The name lines and the hunks, where there are any. */
  function Changes(before: string, after: string, hunks: seq<Hunk>): seq<string> {
    if hunks == [] then [] else ["--- " + before, "+++ " + after] + HunksLines(hunks)
  }

  /** A path after its prefix; Git ends it with a tab where it holds a space. */
  function SidePath(prefix: string, path: string): string {
    prefix + path + if ' ' in path then "\t" else ""
  }

  lemma ModeLineReads(mode: string)
    requires FileMode(mode)
    ensures IsModeLine("new file mode " + mode) && ParseMode("new file mode " + mode) == Some(Created(mode))
    ensures IsModeLine("deleted file mode " + mode) && ParseMode("deleted file mode " + mode) == Some(Deleted(mode))
  {
    SpaceBefore("new file mode", mode);
    SpaceBefore("deleted file mode", mode);
    assert "new file mode " + mode == "new file mode" + " " + mode;
    assert "deleted file mode " + mode == "deleted file mode" + " " + mode;
  }

  lemma {:induction false} SpaceBefore(head: string, word: string)
    requires ' ' !in word
    ensures LastSpace(head + " " + word) == |head|
  {
    var line := head + " " + word;
    if word != "" {
      SpaceBefore(head, word[..|word| - 1]);
      assert line[..|line| - 1] == head + " " + word[..|word| - 1];
      assert line[|line| - 1] == word[|word| - 1];
    }
  }

  lemma RecordedIsId(id: string)
    ensures Recorded(id) ==> IsId(id) && id != ZERO
    ensures NO_FILE == ZERO && IsId(NO_FILE)
  {
  }

  lemma CreationIsGood(s: Section, mode: string)
    requires s.path != "" && FileMode(mode) && s.mode == Some("new file mode " + mode)
    requires s.ids.pre == NO_FILE && Recorded(s.ids.post) && s.ids.mode.None?
    requires forall k :: 0 <= k < |s.hunks| ==> GoodHunk(s.hunks[k])
    requires s.hunks == [] ==> s.ids.post == "e69de29bb2d1d6434b8b29ae775ad8c2e48c5391"
    ensures GoodSection(s) && ChangeOf(s) == Some(Created(mode))
    ensures FileOf(s) == FilePatch(s.path, None, Some(s.ids.post), mode)
  {
    hide GoodHunk, ParseMode, Recorded, IsId;
    ModeLineReads(mode);
    RecordedIsId(s.ids.pre);
    RecordedIsId(s.ids.post);
  }

  lemma DeletionIsGood(s: Section, mode: string)
    requires s.path != "" && FileMode(mode) && s.mode == Some("deleted file mode " + mode)
    requires s.ids.post == NO_FILE && Recorded(s.ids.pre) && s.ids.mode.None?
    requires forall k :: 0 <= k < |s.hunks| ==> GoodHunk(s.hunks[k])
    requires s.hunks == [] ==> s.ids.pre == "e69de29bb2d1d6434b8b29ae775ad8c2e48c5391"
    ensures GoodSection(s) && ChangeOf(s) == Some(Deleted(mode))
    ensures FileOf(s) == FilePatch(s.path, Some(s.ids.pre), None, mode)
  {
    hide GoodHunk, ParseMode, Recorded, IsId;
    ModeLineReads(mode);
    RecordedIsId(s.ids.pre);
    RecordedIsId(s.ids.post);
  }

  /** A section that creates a file, as Git writes it, reads as that. */
  lemma CreationReads(path: string, id: string, mode: string, hunks: seq<Hunk>, rest: seq<string>)
    requires path != "" && Recorded(id) && FileMode(mode) && Ends(rest)
    requires forall k :: 0 <= k < |hunks| ==> GoodHunk(hunks[k])
    requires hunks == [] ==> id == "e69de29bb2d1d6434b8b29ae775ad8c2e48c5391"
    ensures ParseSection(["diff --git a/" + path + " b/" + path, "new file mode " + mode,
                          "index " + NO_FILE + ".." + id]
                         + Changes("/dev/null", SidePath("b/", path), hunks) + rest)
      == Some((FilePatch(path, None, Some(id), mode), rest))
  {
    hide GoodHunk, ParseSection, Ends, Recorded, FileMode, GoodSection, FileOf, SectionLines;
    var s := Section(path, Some("new file mode " + mode), Ids(NO_FILE, id, None), hunks);
    CreationIsGood(s, mode);
    SectionReads(s, rest);
    LineTexts(s);
    SectionText(s, rest);
  }

  /** And one that deletes a file. */
  lemma DeletionReads(path: string, id: string, mode: string, hunks: seq<Hunk>, rest: seq<string>)
    requires path != "" && Recorded(id) && FileMode(mode) && Ends(rest)
    requires forall k :: 0 <= k < |hunks| ==> GoodHunk(hunks[k])
    requires hunks == [] ==> id == "e69de29bb2d1d6434b8b29ae775ad8c2e48c5391"
    ensures ParseSection(["diff --git a/" + path + " b/" + path, "deleted file mode " + mode,
                          "index " + id + ".." + NO_FILE]
                         + Changes(SidePath("a/", path), "/dev/null", hunks) + rest)
      == Some((FilePatch(path, Some(id), None, mode), rest))
  {
    hide GoodHunk, ParseSection, Ends, Recorded, FileMode, GoodSection, FileOf, SectionLines;
    var s := Section(path, Some("deleted file mode " + mode), Ids(id, NO_FILE, None), hunks);
    DeletionIsGood(s, mode);
    SectionReads(s, rest);
    LineTexts(s);
    SectionText(s, rest);
  }

  /** And one that changes a file's contents. */
  lemma ModificationReads(path: string, old_: string, new_: string, mode: string, hunks: seq<Hunk>, rest: seq<string>)
    requires path != "" && Recorded(old_) && Recorded(new_) && old_ != new_ && FileMode(mode) && Ends(rest)
    requires hunks != [] && forall k :: 0 <= k < |hunks| ==> GoodHunk(hunks[k])
    ensures ParseSection(["diff --git a/" + path + " b/" + path, "index " + old_ + ".." + new_ + " " + mode]
                         + Changes(SidePath("a/", path), SidePath("b/", path), hunks) + rest)
      == Some((FilePatch(path, Some(old_), Some(new_), mode), rest))
  {
    hide GoodHunk, ParseSection, Ends, SectionLines;
    var s := Section(path, None, Ids(old_, new_, Some(mode)), hunks);
    SectionReads(s, rest);
    LineTexts(s);
    SectionText(s, rest);
  }

  /** The single lines of a section, spelled out. */
  lemma LineTexts(s: Section)
    requires ChangeOf(s).Some?
    ensures DiffLine(s.path) == "diff --git a/" + s.path + " b/" + s.path
    ensures s.ids.mode.None? ==> IndexLine(s.ids) == "index " + s.ids.pre + ".." + s.ids.post
    ensures s.ids.mode.Some? ==>
              IndexLine(s.ids) == "index " + s.ids.pre + ".." + s.ids.post + " " + s.ids.mode.value
    ensures ContentLines(s.path, ChangeOf(s).value, s.hunks) ==
            Changes(if ChangeOf(s).value.Created? then "/dev/null" else SidePath("a/", s.path),
                    if ChangeOf(s).value.Deleted? then "/dev/null" else SidePath("b/", s.path), s.hunks)
  {
    hide HunksLines, ParseMode;
    var ids := "index " + s.ids.pre + ".." + s.ids.post;
    assert ids + "" == ids;
    assert s.ids.mode.Some? ==> ids + (" " + s.ids.mode.value) == ids + " " + s.ids.mode.value;
  }

  lemma SectionText(s: Section, rest: seq<string>)
    requires GoodSection(s)
    ensures var content := ContentLines(s.path, ChangeOf(s).value, s.hunks);
            SectionLines(s) + rest ==
            (if s.mode.Some? then [DiffLine(s.path), s.mode.value, IndexLine(s.ids)]
             else [DiffLine(s.path), IndexLine(s.ids)]) + content + rest
  {
    hide GoodSection, ContentLines, DiffLine, IndexLine;
    var d, i := DiffLine(s.path), IndexLine(s.ids);
    if s.mode.Some? {
      assert [d] + [s.mode.value] + [i] == [d, s.mode.value, i];
    } else {
      assert [d] + [] + [i] == [d, i];
    }
  }

  /** What a section that is read declares: recorded ids that differ, a file mode, and its own path. */
  lemma DeclaresOnly(lines: seq<string>)
    requires lines != [] && ParseSection(lines).Some?
    ensures var f := ParseSection(lines).value.0;
      && f.path != "" && lines[0] == "diff --git a/" + f.path + " b/" + f.path
      && FileMode(f.mode) && f.pre != f.post
      && (f.pre.Some? ==> Recorded(f.pre.value)) && (f.post.Some? ==> Recorded(f.post.value))
      && (f.pre.None? ==> |lines| > 1 && lines[1] == "new file mode " + f.mode)
      && (f.post.None? ==> |lines| > 1 && lines[1] != "new file mode " + f.mode && IsModeLine(lines[1]))
      && (f.pre.Some? && f.post.Some? ==> |lines| > 1 && !IsModeLine(lines[1]))
  {
    hide AfterContent, HeaderPath, ParseMode, ParseIndex, Entry, FileMode, Recorded, IsModeLine;
    var path := HeaderPath(lines[0][|DIFF|..]).value;
    HeaderPathExact(lines[0][|DIFF|..], path);
    assert lines[0] == DIFF + lines[0][|DIFF|..];
    var (change, more) := ParseChange(lines[1..]).value;
    var ids := ParseIndex(more[0]).value;
    IndexExact(more[0]);
    assert lines[1..][0] == lines[1];
    if IsModeLine(lines[1]) {
      ModeLineDeclares(lines[1]);
    }
    EntryDeclares(path, change, ids);
  }

  lemma EntryDeclares(path: string, change: Change, ids: Ids)
    requires GoodIds(ids) && Entry(path, change, ids).Some?
    requires !change.Modified? ==> FileMode(change.mode)
    ensures var f := Entry(path, change, ids).value;
      && f.path == path && FileMode(f.mode) && f.pre != f.post
      && (f.pre.None? <==> change.Created?) && (f.post.None? <==> change.Deleted?)
      && (!change.Modified? ==> f.mode == change.mode)
      && (f.pre.Some? ==> Recorded(f.pre.value)) && (f.post.Some? ==> Recorded(f.post.value))
  {
  }

  lemma ModeLineDeclares(line: string)
    requires IsModeLine(line) && ParseMode(line).Some?
    ensures var change := ParseMode(line).value;
      && !change.Modified? && FileMode(change.mode)
      && (change.Created? <==> line == "new file mode " + change.mode)
  {
    hide LastSpace;
    var k := LastSpace(line);
    assert line == line[..k] + " " + line[k + 1..];
    assert "new file mode" + " " + line[k + 1..] == "new file mode " + line[k + 1..];
    if line == "new file mode " + line[k + 1..] {
      assert line[..k] == "new file mode";
    }
  }

  // ------------------------------------------------------------------ counts

  predicate BodyLine(line: string) { line != "" && line[0] in " -+\\" }

  /** How many body lines belong to the old file, and how many to the new one. */
  function Lines(body: seq<string>, kinds: string): nat {
    if body == [] then 0
    else (if body[0] != "" && body[0][0] in kinds then 1 else 0) + Lines(body[1..], kinds)
  }

  /**
   * A body fits its header exactly when its context and removed lines are the announced old lines,
   * its context and added lines the announced new ones, and no note stands at its end.
   */
  lemma {:induction false} CountedExact(body: seq<string>, old_: nat, new_: nat)
    ensures Counted(body, old_, new_) <==>
            && (forall k :: 0 <= k < |body| ==> BodyLine(body[k]))
            && Lines(body, " -") == old_ && Lines(body, " +") == new_
            && (body != [] ==> body[|body| - 1][0] != '\\')
    decreases |body|
  {
    if body != [] {
      var due := Consume(body[0], old_, new_);
      if due.Some? {
        CountedExact(body[1..], due.value.0, due.value.1);
        assert BodyLine(body[0]);
      }
      if |body| == 1 { LinesOfNone(" -"); LinesOfNone(" +"); }
      assert (forall k :: 0 <= k < |body| ==> BodyLine(body[k])) <==>
             BodyLine(body[0]) && forall k :: 0 <= k < |body[1..]| ==> BodyLine(body[1..][k]);
    }
  }

  lemma LinesOfNone(kinds: string)
    ensures Lines([], kinds) == 0
  {
  }

  function Decimal(n: nat): (ds: string)
    ensures |ds| >= 1 && forall k :: 0 <= k < |ds| ==> IsDigit(ds[k])
  {
    if n < 10 then [('0' as nat + n) as char] else Decimal(n / 10) + [('0' as nat + n % 10) as char]
  }

  lemma {:induction false} DecimalReads(n: nat)
    ensures Number(Decimal(n)) == n
  {
    var ds := Decimal(n);
    if n >= 10 {
      DecimalReads(n / 10);
      assert ds[..|ds| - 1] == Decimal(n / 10);
    } else {
      assert ds[..0] == "";
    }
  }

  lemma {:induction false} RunExact(ds: string, rest: string)
    requires forall k :: 0 <= k < |ds| ==> IsDigit(ds[k])
    requires rest == "" || !IsDigit(rest[0])
    ensures DigitRun(ds + rest) == |ds|
  {
    if ds == "" {
      assert ds + rest == rest;
    } else {
      assert (ds + rest)[1..] == ds[1..] + rest;
      RunExact(ds[1..], rest);
    }
  }

  /** A position and a count, as a hunk header writes them, before `rest`. */
  function Range(start: nat, count: nat, rest: string): string {
    Decimal(start) + ("," + (Decimal(count) + rest))
  }

  lemma RangeReads(start: nat, count: nat, rest: string)
    requires rest == "" || !IsDigit(rest[0])
    ensures ParseCount(Range(start, count, rest)) == Some((count, rest))
  {
    hide Decimal, Number, DigitRun;
    var ds, more := Decimal(start), Decimal(count) + rest;
    var tail := "," + more;
    RunExact(ds, tail);
    RunExact(Decimal(count), rest);
    DecimalReads(count);
    assert Range(start, count, rest)[|ds|..] == tail;
    assert tail[1..] == more;
    assert tail[1..1 + |Decimal(count)|] == Decimal(count);
    assert tail[1 + |Decimal(count)|..] == rest;
  }

  /** A count left out is one. */
  lemma CountLeftOut(start: nat, rest: string)
    requires rest == "" || (!IsDigit(rest[0]) && rest[0] != ',')
    ensures ParseCount(Decimal(start) + rest) == Some((1, rest))
  {
    hide Decimal, Number, DigitRun;
    RunExact(Decimal(start), rest);
    assert (Decimal(start) + rest)[|Decimal(start)|..] == rest;
  }

  /** The header Git writes for a hunk announces its two counts. */
  lemma HeaderReads(a: nat, old_: nat, b: nat, new_: nat, context: string)
    requires context == "" || context[0] == ' '
    ensures ParseHunk("@@ -" + Range(a, old_, " +" + Range(b, new_, " @@" + context))) == Some((old_, new_))
  {
    hide Range, ParseCount;
    var last := " @@" + context;
    var added := Range(b, new_, last);
    var after := " +" + added;
    var removed := Range(a, old_, after);
    var line := "@@ -" + removed;
    RangeReads(a, old_, after);
    RangeReads(b, new_, last);
    assert line[..4] == "@@ -" && line[4..] == removed;
    assert after[..2] == " +" && after[2..] == added;
    assert last[..3] == " @@" && last[3..] == context;
    if context != "" { assert last[..4] == " @@ "; }
  }

  // ------------------------------------------------------------------ whole patches

  predicate DistinctFiles(files: seq<FilePatch>) {
    forall i, j :: 0 <= i < j < |files| ==> files[i].path != files[j].path
  }

  lemma {:induction false} SectionsRead(sections: seq<Section>, files: seq<FilePatch>)
    requires GoodSections(sections) && DistinctFiles(files + Files(sections)) && |files| + |sections| <= MAX_FILES
    ensures ParseSections(Render(sections), files) == Some(files + Files(sections))
    decreases |sections|
  {
    hide GoodSection, SectionLines, ParseSection;
    var all := files + Files(sections);
    if sections == [] {
      assert all == files;
    } else {
      var s, more := sections[0], Render(sections[1..]);
      if |sections| > 1 {
        SectionHead(sections[1]);
        assert more == SectionLines(sections[1]) + Render(sections[1..][1..]);
      }
      SectionReads(s, more);
      SectionHead(s);
      forall f | f in files ensures f.path != FileOf(s).path {
        var i :| 0 <= i < |files| && files[i] == f;
        assert all[i].path != all[|files|].path;
      }
      assert files + [FileOf(s)] + Files(sections[1..]) == all;
      SectionsRead(sections[1..], files + [FileOf(s)]);
    }
  }

  lemma SectionHead(s: Section)
    requires GoodSection(s)
    ensures SectionLines(s) != [] && DIFF <= SectionLines(s)[0]
  {
    hide GoodHunk, Entry, HunksLines, ContentLines, ParseIndex, Hunkless, GoodIds, IndexLine;
    assert SectionLines(s)[0] == DiffLine(s.path);
    assert DIFF <= DiffLine(s.path);
  }

  lemma {:induction false} SectionsExact(lines: seq<string>, files: seq<FilePatch>) returns (sections: seq<Section>)
    requires ParseSections(lines, files).Some? && DistinctFiles(files) && |files| <= MAX_FILES
    ensures GoodSections(sections) && lines == Render(sections)
    ensures ParseSections(lines, files).value == files + Files(sections)
    ensures DistinctFiles(files + Files(sections)) && |files| + |sections| <= MAX_FILES
    decreases |lines|
  {
    hide GoodSection, SectionLines, ParseSection;
    if lines == [] {
      sections := [];
      assert files + Files([]) == files;
    } else {
      var (file, rest) := ParseSection(lines).value;
      var s := SectionExact(lines);
      assert DistinctFiles(files + [file]);
      var more := SectionsExact(rest, files + [file]);
      sections := [s] + more;
      assert sections[1..] == more;
      assert files + Files(sections) == files + [file] + Files(more);
    }
  }

  /** No line of a rendering holds a line break. */
  predicate OneLiners(lines: seq<string>) { forall k :: 0 <= k < |lines| ==> '\n' !in lines[k] }

  /** A patch that can be written: good sections of distinct files, each element on its own line. */
  predicate Writable(sections: seq<Section>) {
    && 0 < |sections| <= 10_000 && GoodSections(sections)
    && DistinctFiles(Files(sections)) && OneLiners(Render(sections))
  }

  function RenderText(sections: seq<Section>): string
    requires Writable(sections)
  {
    Join(Render(sections), '\n') + "\n"
  }

  /**
   * The parser inverts rendering: a written patch reads back as exactly the files its
   * sections declare, whatever its hunk bodies look like.
   */
  lemma ParseInvertsRender(sections: seq<Section>)
    requires Writable(sections)
    ensures Parse(RenderText(sections)) == Some(Files(sections))
  {
    hide GoodSection, SectionLines, ParseSections;
    var lines, text := Render(sections), RenderText(sections);
    SectionHead(sections[0]);
    assert lines == SectionLines(sections[0]) + Render(sections[1..]);
    SplitJoin(lines, '\n');
    assert text[..|text| - 1] == Join(lines, '\n');
    assert lines[0] <= Join(lines, '\n');
    assert DIFF <= text;
    assert [] + Files(sections) == Files(sections);
    SectionsRead(sections, []);
  }

  /** And it accepts nothing else: whatever it reads is some writable patch's text. */
  lemma ParseAcceptsOnlyRenderings(text: string) returns (sections: seq<Section>)
    requires Parse(text).Some?
    ensures Writable(sections) && text == RenderText(sections) && Parse(text).value == Files(sections)
  {
    hide GoodSection, SectionLines, ParseSections;
    var lines := Split(text[..|text| - 1], '\n');
    sections := SectionsExact(lines, []);
    JoinSplit(text[..|text| - 1], '\n');
    assert text == text[..|text| - 1] + "\n";
    assert [] + Files(sections) == Files(sections);
  }
}
