/** Captures that pass the collision check can be written in any order, and what is written passes inspection. */
module CapturesProofs {
  import opened Prelude
  import opened Captures

  // ------------------------------------------------------------------ the check says when names clash

  lemma CountDistinct(paths: seq<Path>, fold: Fold)
    ensures var names := set p | p in paths :: Keyed(p, fold);
      |names| == |paths| <==> forall i, j :: 0 <= i < j < |paths| ==> Keyed(paths[i], fold) != Keyed(paths[j], fold)
  {
    hide Keyed;
    var names := set p | p in paths :: Keyed(p, fold);
    var folded := seq(|paths|, i requires 0 <= i < |paths| => Keyed(paths[i], fold));
    DistinctExactly(folded);
    forall i | 0 <= i < |paths| ensures folded[i] in names { assert paths[i] in paths; }
    forall p | p in paths ensures Keyed(p, fold) in folded {
      var i :| 0 <= i < |paths| && paths[i] == p;
      assert folded[i] == Keyed(p, fold);
    }
    assert (set x | x in folded) == names;
    assert Distinct(folded) <==>
      forall i, j :: 0 <= i < j < |paths| ==> Keyed(paths[i], fold) != Keyed(paths[j], fold) by {
      forall i | 0 <= i < |paths| ensures folded[i] == Keyed(paths[i], fold) { }
    }
  }

  /** The collision check passes exactly when no folded path is or contains another. */
  lemma CollideExactly(paths: seq<Path>, fold: Fold)
    requires forall p :: p in paths ==> p != []
    ensures Collide(paths, fold) <==> !Clear(paths, fold)
  {
    hide Keyed;
    CountDistinct(paths, fold);
    var names := set p | p in paths :: Keyed(p, fold);
    if Collide(paths, fold) && |names| == |paths| {
      var name, k :| name in names && 0 < k < |name| && name[..k] in names;
      var i := IndexOf(paths, fold, name[..k]);
      var j := IndexOf(paths, fold, name);
      assert Keyed(paths[i], fold) <= Keyed(paths[j], fold);
    }
    if !Clear(paths, fold) && |names| == |paths| {
      var i, j :| 0 <= i < |paths| && 0 <= j < |paths| && i != j && Keyed(paths[i], fold) <= Keyed(paths[j], fold);
      var name, k := Keyed(paths[j], fold), |paths[i]|;
      assert paths[i] in paths && paths[j] in paths;
      assert name[..k] == Keyed(paths[i], fold) && name in names;
      assert name[..|name|] == name && Keyed(paths[i], fold) != name;
    }
  }

  lemma IndexOf(paths: seq<Path>, fold: Fold, name: Path) returns (i: nat)
    requires name in set p | p in paths :: Keyed(p, fold)
    ensures i < |paths| && Keyed(paths[i], fold) == name
  {
    var p :| p in paths && Keyed(p, fold) == name;
    i :| 0 <= i < |paths| && paths[i] == p;
  }

  /** A file system that tells apart at least the names that folding tells apart. */
  ghost predicate Finer(key: Fold, fold: Fold) {
    forall x :: fold(key(x)) == fold(x)
  }

  lemma KeyedFolds(p: Path, key: Fold, fold: Fold)
    requires Finer(key, fold)
    ensures Keyed(Keyed(p, key), fold) == Keyed(p, fold)
  {
  }

  lemma ClearWhereFiner(paths: seq<Path>, key: Fold, fold: Fold)
    requires Finer(key, fold) && Clear(paths, fold)
    ensures Clear(paths, key)
  {
  }

  // ------------------------------------------------------------------ writing

  function PathsOf(files: seq<Stored>): (paths: seq<Path>)
    ensures |paths| == |files| && forall i :: 0 <= i < |files| ==> paths[i] == files[i].path
  {
    seq(|files|, i requires 0 <= i < |files| => files[i].path)
  }

  predicate IsFileOf(files: seq<Stored>, k: Path, key: Fold) {
    exists f :: f in files && Keyed(f.path, key) == k
  }

  predicate IsDirOf(files: seq<Stored>, d: Path, key: Fold) {
    exists f :: f in files && d in Parents(Keyed(f.path, key))
  }

  /** The directory holds exactly these files, and the directories they need. */
  ghost predicate Holds(d: Disk, files: seq<Stored>, key: Fold) {
    && (forall f :: f in files ==> Keyed(f.path, key) in d.files && d.files[Keyed(f.path, key)] == f)
    && (forall k :: k in d.files ==> IsFileOf(files, k, key))
    && (forall p :: p in d.dirs <==> IsDirOf(files, p, key))
  }

  /** Adding one file to files that do not clash. */
  ghost predicate Joins(files: seq<Stored>, f: Stored, key: Fold) {
    forall g :: g in files ==> Apart(g.path, f.path, key) && Apart(f.path, g.path, key)
  }

  predicate Apart(p: Path, q: Path, key: Fold) { !(Keyed(p, key) <= Keyed(q, key)) }

  lemma ClearGrows(files: seq<Stored>, f: Stored, key: Fold)
    ensures Clear(PathsOf(files + [f]), key) <==> Clear(PathsOf(files), key) && Joins(files, f, key)
  {
    hide Keyed;
    var all := files + [f];
    var paths, fewer := PathsOf(all), PathsOf(files);
    assert forall i :: 0 <= i < |files| ==> paths[i] == fewer[i];
    assert paths[|files|] == f.path;
    if Clear(paths, key) {
      forall g | g in files ensures Apart(g.path, f.path, key) && Apart(f.path, g.path, key) {
        var i :| 0 <= i < |files| && files[i] == g;
        assert paths[i] == g.path;
      }
      forall i, j | 0 <= i < |fewer| && 0 <= j < |fewer| && i != j ensures Apart(fewer[i], fewer[j], key) {
        assert paths[i] == fewer[i] && paths[j] == fewer[j];
      }
    }
    if Clear(fewer, key) && Joins(files, f, key) {
      forall i, j | 0 <= i < |paths| && 0 <= j < |paths| && i != j ensures Apart(paths[i], paths[j], key) {
        assert i < |files| ==> files[i] in files;
        assert j < |files| ==> files[j] in files;
        assert i < |files| && j < |files| ==> fewer[i] == paths[i] && fewer[j] == paths[j];
      }
    }
  }

  lemma PutClashes(d: Disk, files: seq<Stored>, f: Stored, g: Stored, key: Fold)
    requires Holds(d, files, key) && f.path != [] && g.path != [] && g in files
    requires Keyed(g.path, key) <= Keyed(f.path, key) || Keyed(f.path, key) <= Keyed(g.path, key)
    ensures !Put(d, f, key).1
  {
    var k, other := Keyed(f.path, key), Keyed(g.path, key);
    assert other in d.files;
    if |other| < |k| {
      assert other in Parents(k);
    } else if |k| < |other| {
      assert k in Parents(other);
      assert IsDirOf(files, k, key);
    } else {
      assert k == other;
    }
  }

  lemma PutFits(d: Disk, files: seq<Stored>, f: Stored, key: Fold)
    requires Holds(d, files, key) && f.path != [] && Joins(files, f, key)
    ensures Put(d, f, key).1
  {
  }

  lemma PutExactly(d: Disk, files: seq<Stored>, f: Stored, key: Fold)
    requires Holds(d, files, key) && f.path != [] && forall g :: g in files ==> g.path != []
    ensures Put(d, f, key).1 <==> Joins(files, f, key)
  {
    hide Holds, Put, Keyed;
    if Joins(files, f, key) {
      PutFits(d, files, f, key);
    } else {
      var g :| g in files && (Keyed(g.path, key) <= Keyed(f.path, key) || Keyed(f.path, key) <= Keyed(g.path, key));
      PutClashes(d, files, f, g, key);
    }
  }

  lemma PutHolds(d: Disk, files: seq<Stored>, f: Stored, key: Fold)
    requires Holds(d, files, key) && Joins(files, f, key) && Put(d, f, key).1
    ensures Holds(Put(d, f, key).0, files + [f], key)
  {
    hide Keyed, Parents, Joins, IsFileOf, IsDirOf;
    var k, n := Keyed(f.path, key), Put(d, f, key).0;
    assert n.files == d.files[k := f] && n.dirs == d.dirs + Parents(k);
    hide Put;
    JoinedKeys(files, f, key);
    OneMore(files, f, key);
  }

  lemma JoinedKeys(files: seq<Stored>, f: Stored, key: Fold)
    requires Joins(files, f, key)
    ensures forall g :: g in files ==> Keyed(g.path, key) != Keyed(f.path, key)
  {
    hide Keyed;
    assert forall g :: g in files ==> Apart(g.path, f.path, key);
  }

  lemma OneMore(files: seq<Stored>, f: Stored, key: Fold)
    ensures forall g :: g in files + [f] <==> g in files || g == f
    ensures forall k :: IsFileOf(files + [f], k, key) <==> IsFileOf(files, k, key) || k == Keyed(f.path, key)
    ensures forall p :: IsDirOf(files + [f], p, key) <==> IsDirOf(files, p, key) || p in Parents(Keyed(f.path, key))
  {
    hide Keyed, Parents;
    assert f in files + [f] && forall g :: g in files + [f] <==> g in files || g == f;
  }

  /** Writing files into an empty directory succeeds exactly when none clashes with another. */
  lemma {:induction false} PutAllExactly(files: seq<Stored>, key: Fold)
    requires forall f :: f in files ==> f.path != []
    ensures var (d, ok) := PutAll(EMPTY, files, key);
      && (ok <==> Clear(PathsOf(files), key))
      && (ok ==> Holds(d, files, key))
  {
    hide Put, Clear, Joins;
    if files == [] {
      assert Clear(PathsOf(files), key) by { NoFilesClear(key); }
    } else {
      var most, last := files[..|files| - 1], files[|files| - 1];
      assert files == most + [last];
      PutAllExactly(most, key);
      ClearGrows(most, last, key);
      var (d, ok) := PutAll(EMPTY, most, key);
      if ok {
        PutExactly(d, most, last, key);
        if Put(d, last, key).1 {
          PutHolds(d, most, last, key);
        }
      }
    }
  }

  lemma NoFilesClear(key: Fold)
    ensures Clear(PathsOf([]), key)
  {
  }

  lemma HoldsDetermines(d: Disk, a: seq<Stored>, e: Disk, b: seq<Stored>, key: Fold)
    requires Holds(d, a, key) && Holds(e, b, key) && forall f :: f in a <==> f in b
    ensures d == e
  {
  }

  /** The order of writing decides neither whether it succeeds nor what it leaves. */
  lemma AnyOrder(a: seq<Stored>, b: seq<Stored>, key: Fold)
    requires |a| == |b| && (forall f :: f in a <==> f in b) && forall f :: f in a ==> f.path != []
    ensures PutAll(EMPTY, a, key).1 <==> PutAll(EMPTY, b, key).1
    ensures PutAll(EMPTY, a, key).1 ==> PutAll(EMPTY, a, key) == PutAll(EMPTY, b, key)
  {
    hide PutAll, Holds, Clear, Keyed;
    PutAllExactly(a, key);
    PutAllExactly(b, key);
    SamePathsClash(a, b, key);
    SamePathsClash(b, a, key);
    if PutAll(EMPTY, a, key).1 {
      HoldsDetermines(PutAll(EMPTY, a, key).0, a, PutAll(EMPTY, b, key).0, b, key);
    }
  }

  lemma SamePathsClash(a: seq<Stored>, b: seq<Stored>, key: Fold)
    requires |a| == |b| && (forall f :: f in a <==> f in b) && forall f :: f in a ==> f.path != []
    ensures Clear(PathsOf(a), key) ==> Clear(PathsOf(b), key)
  {
    hide Keyed;
    if Clear(PathsOf(a), key) {
      DistinctExactly(a);
      assert forall i, j :: 0 <= i < j < |a| ==> Keyed(PathsOf(a)[i], key) != Keyed(PathsOf(a)[j], key);
      assert Distinct(a);
      DistinctExactly(b);
      assert (set x | x in a) == set x | x in b;
      forall i, j | 0 <= i < |b| && 0 <= j < |b| && i != j
        ensures !(Keyed(PathsOf(b)[i], key) <= Keyed(PathsOf(b)[j], key))
      {
        assert b[i] != b[j] && b[i] in a && b[j] in a;
        var m :| 0 <= m < |a| && a[m] == b[i];
        var n :| 0 <= n < |a| && a[n] == b[j];
        assert PathsOf(a)[m] == PathsOf(b)[i] && PathsOf(a)[n] == PathsOf(b)[j];
      }
    }
  }

  // ------------------------------------------------------------------ copying

  ghost predicate AllUnchanged(sources: Sources, captures: seq<Captured>, sha: Sha) {
    forall c :: c in captures ==> Unchanged(sources, c, sha)
  }

  function Targets(sources: Sources, captures: seq<Captured>, readonly: bool): (files: seq<Stored>)
    requires forall c :: c in captures ==> (c.root, c.original) in sources
    ensures |files| == |captures|
    ensures forall i :: 0 <= i < |captures| ==> files[i] == Target(sources, captures[i], readonly)
  {
    seq(|captures|, i requires 0 <= i < |captures| => Target(sources, captures[i], readonly))
  }

  lemma {:induction false} CopyIsPut(d: Disk, sources: Sources, captures: seq<Captured>, readonly: bool, key: Fold,
                                     sha: Sha)
    requires AllUnchanged(sources, captures, sha)
    ensures forall c :: c in captures ==> (c.root, c.original) in sources
    ensures CopyAll(d, sources, captures, readonly, key, sha) == PutAll(d, Targets(sources, captures, readonly), key)
  {
    hide Put, EntryOf, Target;
    if captures != [] {
      var most, last := captures[..|captures| - 1], captures[|captures| - 1];
      CopyIsPut(d, sources, most, readonly, key, sha);
      assert last in captures;
      var files := Targets(sources, captures, readonly);
      assert files[..|files| - 1] == Targets(sources, most, readonly);
    }
  }

  lemma {:induction false} CopyNeedsSources(d: Disk, sources: Sources, captures: seq<Captured>, readonly: bool,
                                            key: Fold, sha: Sha)
    requires CopyAll(d, sources, captures, readonly, key, sha).1
    ensures AllUnchanged(sources, captures, sha)
  {
    hide Put, Unchanged;
    if captures != [] {
      var most, last := captures[..|captures| - 1], captures[|captures| - 1];
      CopyNeedsSources(d, sources, most, readonly, key, sha);
      assert captures == most + [last];
    }
  }

  function Names(captures: seq<Captured>): (paths: seq<Path>)
    ensures |paths| == |captures| && forall i :: 0 <= i < |captures| ==> paths[i] == captures[i].entry.path
  {
    seq(|captures|, i requires 0 <= i < |captures| => captures[i].entry.path)
  }

  /**
   * Copying into an empty directory succeeds exactly when every source is as captured and no two
   * names clash on that file system; what is then there is exactly the captured files.
   */
  lemma CopyExactly(sources: Sources, captures: seq<Captured>, readonly: bool, key: Fold, sha: Sha)
    requires forall c :: c in captures ==> c.entry.path != []
    ensures var (d, ok) := CopyAll(EMPTY, sources, captures, readonly, key, sha);
      && (ok <==> AllUnchanged(sources, captures, sha) && Clear(Names(captures), key))
      && (ok ==> forall c :: c in captures ==> (c.root, c.original) in sources)
      && (ok ==> Holds(d, Targets(sources, captures, readonly), key))
  {
    hide Unchanged, Holds, Clear;
    if AllUnchanged(sources, captures, sha) {
      CopyIsPut(EMPTY, sources, captures, readonly, key, sha);
      var files := Targets(sources, captures, readonly);
      assert PathsOf(files) == Names(captures);
      forall f | f in files ensures f.path != [] {
        var i :| 0 <= i < |files| && files[i] == f;
        assert captures[i] in captures;
      }
      PutAllExactly(files, key);
    } else if CopyAll(EMPTY, sources, captures, readonly, key, sha).1 {
      CopyNeedsSources(EMPTY, sources, captures, readonly, key, sha);
    }
  }

  /** Names that pass the collision check can be copied on every file system no coarser than folding. */
  lemma CheckedCopySucceeds(sources: Sources, captures: seq<Captured>, readonly: bool, key: Fold, fold: Fold, sha: Sha)
    requires forall c :: c in captures ==> c.entry.path != []
    requires AllUnchanged(sources, captures, sha) && !Collide(Names(captures), fold) && Finer(key, fold)
    ensures CopyAll(EMPTY, sources, captures, readonly, key, sha).1
  {
    hide Clear, Collide, CopyAll, Unchanged, Finer;
    forall p | p in Names(captures) ensures p != [] {
      var i :| 0 <= i < |captures| && Names(captures)[i] == p;
      assert captures[i] in captures;
    }
    CollideExactly(Names(captures), fold);
    ClearWhereFiner(Names(captures), key, fold);
    CopyExactly(sources, captures, readonly, key, sha);
  }

  // ------------------------------------------------------------------ inspection

  lemma WrittenReadsBack(sources: Sources, c: Captured, readonly: bool, sha: Sha)
    requires Unchanged(sources, c, sha)
    ensures var f := Target(sources, c, readonly);
      EntryOf(c.entry.path, f.raw, f.mode, sha) == c.entry.(mode := ModeOf(c, readonly))
  {
  }

  /** What was copied reads back as the entries recorded for it. */
  lemma CopiedReadsBack(sources: Sources, captures: seq<Captured>, readonly: bool, key: Fold, sha: Sha, e: FileEntry)
    requires forall c :: c in captures ==> c.entry.path != []
    requires CopyAll(EMPTY, sources, captures, readonly, key, sha).1 && e in Entries(captures, readonly)
    ensures ReadsBack(CopyAll(EMPTY, sources, captures, readonly, key, sha).0, e, key, sha)
  {
    hide CopyAll, Unchanged, Keyed, EntryOf, Clear;
    CopyExactly(sources, captures, readonly, key, sha);
    var files := Targets(sources, captures, readonly);
    var i :| 0 <= i < |captures| && Entries(captures, readonly)[i] == e;
    assert captures[i] in captures && files[i] in files;
    WrittenReadsBack(sources, captures[i], readonly, sha);
  }

  lemma FoldedNames(files: seq<Stored>, entries: seq<FileEntry>, d: Disk, key: Fold, fold: Fold)
    requires Holds(d, files, key) && Finer(key, fold) && |files| == |entries|
    requires forall i :: 0 <= i < |files| ==> files[i].path == entries[i].path
    ensures forall k :: k in d.files ==> Keyed(k, fold) in FoldedFiles(entries, fold)
    ensures forall k :: k in d.dirs ==> Keyed(k, fold) in FoldedDirs(entries, fold)
  {
    hide Keyed;
    forall k | k in d.files ensures Keyed(k, fold) in FoldedFiles(entries, fold) {
      assert IsFileOf(files, k, key);
      var i :| 0 <= i < |files| && Keyed(files[i].path, key) == k;
      KeyedFolds(files[i].path, key, fold);
      assert entries[i] in entries;
    }
    forall k | k in d.dirs ensures Keyed(k, fold) in FoldedDirs(entries, fold) {
      assert IsDirOf(files, k, key);
      var i :| 0 <= i < |files| && k in Parents(Keyed(files[i].path, key));
      KeyedFolds(files[i].path, key, fold);
      ParentFolds(k, Keyed(files[i].path, key), fold);
      assert entries[i] in entries;
    }
  }

  lemma ParentFolds(p: Path, q: Path, fold: Fold)
    requires p in Parents(q)
    ensures Keyed(p, fold) in Parents(Keyed(q, fold))
  {
  }

  /** A view that was copied, untouched since, passes inspection. */
  lemma CopiedIsAccepted(sources: Sources, captures: seq<Captured>, readonly: bool, key: Fold, fold: Fold, sha: Sha,
                         digest: seq<FileEntry> -> string)
    requires forall c :: c in captures ==> c.entry.path != []
    requires CopyAll(EMPTY, sources, captures, readonly, key, sha).1 && Finer(key, fold)
    ensures var entries, d := Entries(captures, readonly), CopyAll(EMPTY, sources, captures, readonly, key, sha).0;
            Inspect(ArtifactView(entries, digest(entries)), d, key, fold, sha, digest)
  {
    hide CopyAll, Unchanged, Holds, Finer, ReadsBack, FoldedFiles, FoldedDirs, Clear;
    CopyExactly(sources, captures, readonly, key, sha);
    var entries := Entries(captures, readonly);
    var d := CopyAll(EMPTY, sources, captures, readonly, key, sha).0;
    FoldedNames(Targets(sources, captures, readonly), entries, d, key, fold);
    forall e | e in entries ensures ReadsBack(d, e, key, sha) {
      CopiedReadsBack(sources, captures, readonly, key, sha, e);
    }
  }

  /** The files a view records, as this file system names them. */
  function RecordedKeys(files: seq<FileEntry>, key: Fold): set<Path> {
    set e | e in files :: Keyed(e.path, key)
  }

  /** No two files of a directory fold to one name. */
  ghost predicate OneNameEach(d: Disk, fold: Fold) {
    forall k, l :: k in d.files && l in d.files && Keyed(k, fold) == Keyed(l, fold) ==> k == l
  }

  /** No two recorded files fold to one name, as the collision check has made sure. */
  ghost predicate RecordedApart(files: seq<FileEntry>, fold: Fold) {
    forall e, f :: e in files && f in files && Keyed(e.path, fold) == Keyed(f.path, fold) ==> e == f
  }

  /**
   * On any file system, an inspected view holds exactly the recorded files, each with its recorded
   * bytes and mode, if and only if no two of its files fold to one name.
   */
  lemma InspectedIsRecorded(view: ArtifactView, d: Disk, key: Fold, fold: Fold, sha: Sha,
                            digest: seq<FileEntry> -> string)
    requires Finer(key, fold) && RecordedApart(view.files, fold) && Inspect(view, d, key, fold, sha, digest)
    ensures digest(view.files) == view.digest
    ensures forall k :: k in d.dirs ==> exists e :: e in view.files && Keyed(k, fold) < Keyed(e.path, fold)
    ensures forall e :: e in view.files ==> ReadsBack(d, e, key, sha)
    ensures d.files.Keys == RecordedKeys(view.files, key) <==> OneNameEach(d, fold)
  {
    hide Keyed, EntryOf, Finer;
    var recorded := RecordedKeys(view.files, key);
    forall e | e in view.files
      ensures Keyed(e.path, key) in d.files && Keyed(Keyed(e.path, key), fold) == Keyed(e.path, fold)
    {
      assert ReadsBack(d, e, key, sha);
      KeyedFolds(e.path, key, fold);
    }
    if OneNameEach(d, fold) {
      forall k | k in d.files ensures k in recorded {
        var e :| e in view.files && Keyed(e.path, fold) == Keyed(k, fold);
        assert k == Keyed(e.path, key);
      }
      assert d.files.Keys == recorded;
    }
    if d.files.Keys == recorded {
      forall k, l | k in d.files && l in d.files && Keyed(k, fold) == Keyed(l, fold) ensures k == l {
        assert k in recorded && l in recorded;
        var e :| e in view.files && Keyed(e.path, key) == k;
        var f :| f in view.files && Keyed(f.path, key) == l;
      }
    }
  }

  /** They can: a file whose name differs only by case from a recorded one is let through. */
  lemma CaseVariantPasses(e: FileEntry, other: Path, raw: Bytes, extra: Stored, fold: Fold, sha: Sha,
                          digest: seq<FileEntry> -> string)
    requires |e.path| == 1 && EntryOf(e.path, raw, e.mode, sha) == e
    requires other != e.path && Keyed(other, fold) == Keyed(e.path, fold)
    ensures var same: Fold, d := x => x, Disk(map[e.path := Stored(e.path, raw, e.mode), other := extra], {});
            Inspect(ArtifactView([e], digest([e])), d, same, fold, sha, digest)
  {
    var same: Fold := x => x;
    assert Keyed(e.path, same) == e.path;
    assert e in [e] && Keyed(e.path, fold) in FoldedFiles([e], fold);
  }
}
