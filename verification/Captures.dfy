/** Copying captured files into a fresh directory, the collision checks before it, and inspecting it after. */
module Captures {
  import opened Prelude

  /** A relative path, by its components. */
  type Path = seq<string>

  /** Case folding, or the way one file system identifies names. */
  type Fold = string -> string

  function Keyed(p: Path, key: Fold): (k: Path)
    ensures |k| == |p| && forall i :: 0 <= i < |p| ==> k[i] == key(p[i])
  {
    seq(|p|, i requires 0 <= i < |p| => key(p[i]))
  }

  type Mode = bv9

  datatype FileEntry = FileEntry(path: Path, sha: string, size: nat, mode: Mode)

  type Sha = Bytes -> string

  function EntryOf(path: Path, raw: Bytes, mode: Mode, sha: Sha): FileEntry {
    FileEntry(path, sha(raw), |raw|, mode)
  }

  // ------------------------------------------------------------------ the collision check

  /**
   * `len({name.casefold() ...}) != len(names) or any(parent in names ...)`, as both the baseline
   * mapping and the aggregate view check it before anything is written.
   */
  predicate Collide(paths: seq<Path>, fold: Fold) {
    var names := set p | p in paths :: Keyed(p, fold);
    || |names| != |paths|
    || exists name :: name in names && exists k :: 0 < k < |name| && name[..k] in names
  }

  /** No file is another, and none lies where another needs a directory. */
  ghost predicate Clear(paths: seq<Path>, key: Fold) {
    forall i, j :: 0 <= i < |paths| && 0 <= j < |paths| && i != j ==> !(Keyed(paths[i], key) <= Keyed(paths[j], key))
  }

  // ------------------------------------------------------------------ a directory on disk

  datatype Stored = Stored(path: Path, raw: Bytes, mode: Mode)

  /** Files and directories below the root, under the names the file system identifies them by. */
  datatype Disk = Disk(files: map<Path, Stored>, dirs: set<Path>)

  const EMPTY := Disk(map[], {})

  function Parents(k: Path): (above: set<Path>)
    ensures forall p :: p in above <==> 0 < |p| < |k| && p <= k
  {
    assert forall p :: p <= k ==> p == k[..|p|];
    set i | 0 < i < |k| :: k[..i]
  }

  /** `_write`: making the parents fails at a file among them, and creating fails at anything there. */
  function Put(d: Disk, f: Stored, key: Fold): (Disk, bool) {
    var k := Keyed(f.path, key);
    if exists p :: p in Parents(k) && p in d.files then (d, false)
    else
      var made := Disk(d.files, d.dirs + Parents(k));
      if k in made.files || k in made.dirs then (made, false)
      else (Disk(made.files[k := f], made.dirs), true)
  }

  function PutAll(d: Disk, files: seq<Stored>, key: Fold): (Disk, bool) {
    if files == [] then (d, true)
    else
      var (most, ok) := PutAll(d, files[..|files| - 1], key);
      if ok then Put(most, files[|files| - 1], key) else (most, false)
  }

  // ------------------------------------------------------------------ copying

  /** A file to copy: where it is read, and the entry it was captured as. */
  datatype Captured = Captured(root: string, original: Path, entry: FileEntry)

  /** The files at the sources. */
  type Sources = map<(string, Path), (Bytes, Mode)>

  const READONLY: Mode := 0x16D

  predicate Unchanged(sources: Sources, c: Captured, sha: Sha) {
    && (c.root, c.original) in sources
    && var (raw, mode) := sources[(c.root, c.original)];
    EntryOf(c.entry.path, raw, mode, sha) == c.entry
  }

  function ModeOf(c: Captured, readonly: bool): Mode {
    if readonly then c.entry.mode & READONLY else c.entry.mode
  }

  function Target(sources: Sources, c: Captured, readonly: bool): Stored
    requires (c.root, c.original) in sources
  {
    Stored(c.entry.path, sources[(c.root, c.original)].0, ModeOf(c, readonly))
  }

  function Copy(d: Disk, sources: Sources, c: Captured, readonly: bool, key: Fold, sha: Sha): (Disk, bool) {
    if Unchanged(sources, c, sha) then Put(d, Target(sources, c, readonly), key) else (d, false)
  }

  function CopyAll(d: Disk, sources: Sources, captures: seq<Captured>, readonly: bool, key: Fold, sha: Sha)
    : (Disk, bool) {
    if captures == [] then (d, true)
    else
      var (most, ok) := CopyAll(d, sources, captures[..|captures| - 1], readonly, key, sha);
      if ok then Copy(most, sources, captures[|captures| - 1], readonly, key, sha) else (most, false)
  }

  lemma {:induction false} CopyStops(d: Disk, sources: Sources, captures: seq<Captured>, readonly: bool, key: Fold,
                                     sha: Sha, k: nat)
    requires k <= |captures| && !CopyAll(d, sources, captures[..k], readonly, key, sha).1
    ensures CopyAll(d, sources, captures, readonly, key, sha) == CopyAll(d, sources, captures[..k], readonly, key, sha)
  {
    if k == |captures| {
      assert captures[..k] == captures;
    } else {
      assert captures[..|captures| - 1][..k] == captures[..k];
      CopyStops(d, sources, captures[..|captures| - 1], readonly, key, sha, k);
    }
  }

  function Entries(captures: seq<Captured>, readonly: bool): (entries: seq<FileEntry>)
    ensures |entries| == |captures|
    ensures forall i :: 0 <= i < |captures| ==>
      entries[i] == captures[i].entry.(mode := ModeOf(captures[i], readonly))
  {
    seq(|captures|, i requires 0 <= i < |captures| => captures[i].entry.(mode := ModeOf(captures[i], readonly)))
  }

  class Directory {
    var files: map<Path, Stored>
    var dirs: set<Path>
    const key: Fold

    ghost function View(): Disk reads this { Disk(files, dirs) }

    constructor (key: Fold)
      ensures View() == EMPTY && this.key == key
    {
      files, dirs := map[], {};
      this.key := key;
    }

    method Write(f: Stored) returns (ok: bool)
      modifies this
      ensures (View(), ok) == Put(old(View()), f, key)
    {
      var k := Keyed(f.path, key);
      if exists p :: p in Parents(k) && p in files {
        return false;
      }
      dirs := dirs + Parents(k);
      if k in files || k in dirs {
        return false;
      }
      files := files[k := f];
      return true;
    }

    /** `_copy_captures`: the entries written, or None at the first source that changed or file that is in the way. */
    method CopyCaptures(sources: Sources, captures: seq<Captured>, readonly: bool, sha: Sha)
      returns (entries: Option<seq<FileEntry>>)
      modifies this
      ensures (View(), entries.Some?) == CopyAll(old(View()), sources, captures, readonly, key, sha)
      ensures entries.Some? ==> entries.value == Entries(captures, readonly)
    {
      hide Put, Unchanged;
      ghost var start := View();
      var written: seq<FileEntry> := [];
      for k := 0 to |captures|
        invariant (View(), true) == CopyAll(start, sources, captures[..k], readonly, key, sha)
        invariant written == Entries(captures[..k], readonly)
      {
        var c := captures[k];
        assert captures[..k + 1][..k] == captures[..k];
        if !Unchanged(sources, c, sha) {
          CopyStops(start, sources, captures, readonly, key, sha, k + 1);
          return None;
        }
        Read(sources, c, sha);
        var raw := sources[(c.root, c.original)].0;
        var mode := ModeOf(c, readonly);
        var ok := Write(Stored(c.entry.path, raw, mode));
        if !ok {
          CopyStops(start, sources, captures, readonly, key, sha, k + 1);
          return None;
        }
        written := written + [c.entry.(mode := mode)];
      }
      assert captures[..|captures|] == captures;
      return Some(written);
    }
  }

  lemma Read(sources: Sources, c: Captured, sha: Sha)
    requires Unchanged(sources, c, sha)
    ensures (c.root, c.original) in sources
  {
  }

  // ------------------------------------------------------------------ selecting

  /** No two selections under one name disagree. */
  ghost predicate Agree(captures: seq<Captured>) {
    forall i, j :: 0 <= i < j < |captures| && captures[i].entry.path == captures[j].entry.path ==>
      captures[i].entry == captures[j].entry
  }

  ghost predicate FirstAt(captures: seq<Captured>, i: int) {
    0 <= i < |captures| && forall j :: 0 <= j < i ==> captures[j].entry.path != captures[i].entry.path
  }

  /** Every name, under the first capture that has it. */
  ghost predicate Picked(captures: seq<Captured>, chosen: map<Path, Captured>) {
    && (forall i :: 0 <= i < |captures| ==> captures[i].entry.path in chosen)
    && (forall p :: p in chosen ==> chosen[p].entry.path == p)
    && (forall p :: p in chosen ==> exists i :: FirstAt(captures, i) && captures[i] == chosen[p])
  }

  ghost predicate AllAgree(captures: seq<Captured>, chosen: map<Path, Captured>) {
    forall c :: c in captures ==> c.entry.path in chosen && chosen[c.entry.path].entry == c.entry
  }

  lemma PickedGrows(captures: seq<Captured>, chosen: map<Path, Captured>, c: Captured)
    requires Picked(captures, chosen)
    ensures Picked(captures + [c], if c.entry.path in chosen then chosen else chosen[c.entry.path := c])
  {
    var all := captures + [c];
    forall i | FirstAt(captures, i) ensures FirstAt(all, i) && all[i] == captures[i] {
    }
    if c.entry.path !in chosen {
      assert FirstAt(all, |captures|) && all[|captures|] == c;
    }
  }

  lemma AgreeExactly(captures: seq<Captured>, chosen: map<Path, Captured>)
    requires Picked(captures, chosen)
    ensures Agree(captures) <==> AllAgree(captures, chosen)
  {
  }

  /** The `select` calls of the aggregate view: the first capture of each name, if all of them agree. */
  method Select(captures: seq<Captured>) returns (selected: Option<map<Path, Captured>>)
    ensures selected.Some? <==> Agree(captures)
    ensures selected.Some? ==> Picked(captures, selected.value)
  {
    hide Picked, Agree;
    var chosen: map<Path, Captured> := map[];
    Nothing();
    for k := 0 to |captures|
      invariant Picked(captures[..k], chosen) && AllAgree(captures[..k], chosen)
    {
      var c := captures[k];
      assert captures[..k + 1] == captures[..k] + [c];
      PickedGrows(captures[..k], chosen, c);
      if c.entry.path in chosen && chosen[c.entry.path].entry != c.entry {
        AgreeExactly(captures[..k + 1], chosen);
        Disagree(captures, k + 1);
        return None;
      }
      if c.entry.path !in chosen {
        chosen := chosen[c.entry.path := c];
      }
    }
    assert captures[..|captures|] == captures;
    AgreeExactly(captures, chosen);
    return Some(chosen);
  }

  lemma Nothing()
    ensures Picked([], map[])
  {
  }

  lemma Disagree(captures: seq<Captured>, k: nat)
    requires k <= |captures| && !Agree(captures[..k])
    ensures !Agree(captures)
  {
  }

  // ------------------------------------------------------------------ inspecting

  datatype ArtifactView = ArtifactView(files: seq<FileEntry>, digest: string)

  function FoldedFiles(files: seq<FileEntry>, fold: Fold): set<Path> {
    set e | e in files :: Keyed(e.path, fold)
  }

  function FoldedDirs(files: seq<FileEntry>, fold: Fold): set<Path> {
    set e, p | e in files && p in Parents(Keyed(e.path, fold)) :: p
  }

  /** One recorded file, read back under its recorded name. */
  predicate ReadsBack(d: Disk, e: FileEntry, key: Fold, sha: Sha) {
    && Keyed(e.path, key) in d.files
    && var f := d.files[Keyed(e.path, key)];
    EntryOf(e.path, f.raw, f.mode, sha) == e
  }

  /** `inspect_artifact_view` */
  predicate Inspect(view: ArtifactView, d: Disk, key: Fold, fold: Fold, sha: Sha, digest: seq<FileEntry> -> string) {
    && digest(view.files) == view.digest
    && (forall k :: k in d.files ==> Keyed(k, fold) in FoldedFiles(view.files, fold))
    && (forall k :: k in d.dirs ==> Keyed(k, fold) in FoldedDirs(view.files, fold))
    && (forall e :: e in view.files ==> ReadsBack(d, e, key, sha))
  }
}
