/** What a Git tree id says: it fixes the files, and only the files, of a map of prefix-free paths. */
module GitTreeProofs {
  import opened Prelude
  import opened GitTree
  import Order

  // ------------------------------------------------------------------ inserting and looking up

  /** A file inserted is found, replaces anything below its path, and moves nothing else. */
  lemma {:induction false} InsertLookup(entries: map<Bytes, Node>, p: seq<Bytes>, leaf: Node, q: seq<Bytes>)
    requires p != [] && q != [] && leaf.Leaf?
    requires Insert(entries, p, leaf).Some?
    ensures Lookup(Insert(entries, p, leaf).value, q)
         == if q == p then Some(leaf) else if p <= q then None else Lookup(entries, q)
    decreases |p|
  {
    assert p == [p[0]] + p[1..] && q == [q[0]] + q[1..];
    if |p| > 1 && p[0] == q[0] {
      var child := if p[0] in entries then entries[p[0]] else Dir(map[]);
      if |q| > 1 {
        InsertLookup(child.entries, p[1..], leaf, q[1..]);
        assert p <= q <==> p[1..] <= q[1..];
      }
    }
  }

  /** Inserting is refused exactly where a parent of the path is a file. */
  lemma {:induction false} InsertAccepts(entries: map<Bytes, Node>, p: seq<Bytes>, leaf: Node)
    requires p != []
    ensures Insert(entries, p, leaf).Some? <==> forall k :: 0 < k < |p| ==> Lookup(entries, p[..k]).None?
    decreases |p|
  {
    if |p| > 1 {
      assert p[..1] == [p[0]];
      var child := if p[0] in entries then entries[p[0]] else Dir(map[]);
      if child.Dir? {
        InsertAccepts(child.entries, p[1..], leaf);
        forall k | 1 < k < |p| ensures Lookup(entries, p[..k]) == Lookup(child.entries, p[1..][..k - 1]) {
          assert p[..k][1..] == p[1..][..k - 1];
        }
        if Insert(child.entries, p[1..], leaf).None? {
          var j :| 0 < j < |p| - 1 && Lookup(child.entries, p[1..][..j]).Some?;
          assert Lookup(entries, p[..j + 1]).Some?;
        } else {
          forall k | 0 < k < |p| ensures Lookup(entries, p[..k]).None? {
          }
        }
      } else {
        assert Lookup(entries, p[..1]).Some?;
      }
    }
  }

  /** No file lies below another file. */
  lemma {:induction false} LookupPrefixFree(entries: map<Bytes, Node>, p: seq<Bytes>, q: seq<Bytes>)
    requires p != [] && p <= q && Lookup(entries, p).Some? && Lookup(entries, q).Some?
    ensures p == q
    decreases |p|
  {
    assert p == [p[0]] + p[1..] && q == [q[0]] + q[1..];
    if |p| > 1 {
      assert p[1..] <= q[1..];
      LookupPrefixFree(entries[p[0]].entries, p[1..], q[1..]);
    }
  }

  // ------------------------------------------------------------------ a trie is its files

  /** No directory below the root is empty, as in every trie built by insertion. */
  ghost predicate Full(node: Node) {
    node.Dir? ==> forall name :: name in node.entries ==>
      && (node.entries[name].Dir? ==> node.entries[name].entries != map[])
      && Full(node.entries[name])
  }

  lemma {:induction false} InsertFull(entries: map<Bytes, Node>, p: seq<Bytes>, leaf: Node)
    requires p != [] && leaf.Leaf? && Full(Dir(entries)) && Insert(entries, p, leaf).Some?
    ensures Full(Dir(Insert(entries, p, leaf).value)) && Insert(entries, p, leaf).value != map[]
    decreases |p|
  {
    if |p| > 1 {
      var child := if p[0] in entries then entries[p[0]] else Dir(map[]);
      assert Full(child);
      assert child == Dir(child.entries);
      InsertFull(child.entries, p[1..], leaf);
    }
    assert p[0] in Insert(entries, p, leaf).value;
  }

  lemma {:induction false} SomeFile(node: Node) returns (q: seq<Bytes>)
    requires node.Dir? && Full(node) && node.entries != map[]
    ensures q != [] && Lookup(node.entries, q).Some?
    decreases node
  {
    var name :| name in node.entries;
    if node.entries[name].Leaf? {
      return [name];
    }
    var below := SomeFile(node.entries[name]);
    q := [name] + below;
    assert q[1..] == below;
  }

  ghost predicate SameFiles(a: map<Bytes, Node>, b: map<Bytes, Node>) {
    forall q :: q != [] ==> Lookup(a, q) == Lookup(b, q)
  }

  lemma SameBelow(a: map<Bytes, Node>, b: map<Bytes, Node>, name: Bytes)
    requires SameFiles(a, b) && name in a && name in b && a[name].Dir? && b[name].Dir?
    ensures SameFiles(a[name].entries, b[name].entries)
  {
    forall q | q != [] ensures Lookup(a[name].entries, q) == Lookup(b[name].entries, q) {
      var longer := [name] + q;
      assert longer[1..] == q;
      assert Lookup(a, longer) == Lookup(b, longer);
    }
  }

  lemma SameName(a: Node, b: Node, name: Bytes)
    requires a.Dir? && b.Dir? && Full(a) && SameFiles(a.entries, b.entries) && name in a.entries
    ensures name in b.entries && a.entries[name].Dir? == b.entries[name].Dir?
    ensures a.entries[name].Leaf? ==> a.entries[name] == b.entries[name]
  {
    if a.entries[name].Leaf? {
      assert Lookup(a.entries, [name]) == Lookup(b.entries, [name]);
    } else {
      var below := SomeFile(a.entries[name]);
      var longer := [name] + below;
      assert longer[1..] == below;
      assert Lookup(a.entries, longer) == Lookup(b.entries, longer);
    }
  }

  /** Two tries holding the same files are the same trie. */
  lemma {:induction false} SameFilesSameTrie(a: Node, b: Node)
    requires a.Dir? && b.Dir? && Full(a) && Full(b) && SameFiles(a.entries, b.entries)
    ensures a == b
    decreases a
  {
    hide Lookup;
    forall name | name in a.entries ensures name in b.entries && a.entries[name] == b.entries[name] {
      SameName(a, b, name);
      if a.entries[name].Dir? {
        SameBelow(a.entries, b.entries, name);
        SameFilesSameTrie(a.entries[name], b.entries[name]);
      }
    }
    forall name | name in b.entries ensures name in a.entries {
      SameName(b, a, name);
    }
    assert a.entries.Keys == b.entries.Keys;
    assert a.entries == b.entries;
  }

  // ------------------------------------------------------------------ building from files

  /** No path is another's parent directory, and none is given twice. */
  ghost predicate PrefixFree(files: seq<File>) {
    forall i, j :: 0 <= i < |files| && 0 <= j < |files| && i != j ==> !(Parts(files[i]) <= Parts(files[j]))
  }

  ghost predicate DistinctPaths(files: seq<File>) {
    forall i, j :: 0 <= i < j < |files| ==> files[i].path != files[j].path
  }

  ghost predicate HasPath(files: seq<File>, q: seq<Bytes>) {
    exists f :: f in files && Parts(f) == q
  }

  /** The trie holds exactly these files. */
  ghost predicate Holds(entries: map<Bytes, Node>, files: seq<File>, sha: Hash) {
    && (forall f :: f in files ==> Lookup(entries, Parts(f)) == Some(LeafOf(f, sha)))
    && (forall q :: q != [] && Lookup(entries, q).Some? ==> HasPath(files, q))
  }

  lemma InsertHolds(entries: map<Bytes, Node>, files: seq<File>, f: File, sha: Hash)
    requires Holds(entries, files, sha) && PrefixFree(files + [f])
    ensures Insert(entries, Parts(f), LeafOf(f, sha)).Some?
    ensures Holds(Insert(entries, Parts(f), LeafOf(f, sha)).value, files + [f], sha)
  {
    hide Lookup, Insert, Parts, LeafOf;
    var p, leaf, all := Parts(f), LeafOf(f, sha), files + [f];
    LeafIsLeaf(f, sha);
    forall g | g in files ensures !(Parts(g) <= p) && !(p <= Parts(g)) {
      var i :| 0 <= i < |files| && files[i] == g;
      assert all[i] == g && all[|files|] == f;
    }
    InsertAccepts(entries, p, leaf);
    forall k | 0 < k < |p| ensures Lookup(entries, p[..k]).None? {
      assert p[..k] <= p;
    }
    var grown := Insert(entries, p, leaf).value;
    forall g | g in all ensures Lookup(grown, Parts(g)) == Some(LeafOf(g, sha)) {
      InsertLookup(entries, p, leaf, Parts(g));
      assert g == f || g in files;
    }
    forall q | q != [] && Lookup(grown, q).Some? ensures HasPath(all, q) {
      InsertLookup(entries, p, leaf, q);
      if q == p {
        assert f in all;
      } else {
        assert HasPath(files, q);
        var g :| g in files && Parts(g) == q;
        assert g in all;
      }
    }
  }

  lemma LeafIsLeaf(f: File, sha: Hash)
    ensures LeafOf(f, sha).Leaf? && Parts(f) != []
  {
  }

  lemma {:induction false} BuildFull(files: seq<File>, sha: Hash)
    requires Build(files, sha).Some?
    ensures Full(Dir(Build(files, sha).value))
  {
    if files != [] {
      BuildFull(files[..|files| - 1], sha);
      var last := files[|files| - 1];
      InsertFull(Build(files[..|files| - 1], sha).value, Parts(last), LeafOf(last, sha));
    }
  }

  lemma PrefixFreeInit(files: seq<File>)
    requires files != [] && PrefixFree(files)
    ensures PrefixFree(files[..|files| - 1])
  {
  }

  lemma {:induction false} PrefixFreeBuilds(files: seq<File>, sha: Hash)
    requires PrefixFree(files)
    ensures Build(files, sha).Some? && Holds(Build(files, sha).value, files, sha)
  {
    hide Lookup, Insert, Parts, LeafOf, PrefixFree;
    if files == [] {
      EmptyHoldsNothing();
    } else {
      hide Holds;
      var most, last := files[..|files| - 1], files[|files| - 1];
      PrefixFreeInit(files);
      PrefixFreeBuilds(most, sha);
      assert files == most + [last];
      InsertHolds(Build(most, sha).value, most, last, sha);
    }
  }

  lemma EmptyHoldsNothing()
    ensures forall q :: Lookup(map[], q).None?
  {
  }

  /** The trie `git_tree` builds holds the file map exactly when no path is a parent of another. */
  lemma BuildIsExact(files: seq<File>, sha: Hash)
    requires DistinctPaths(files)
    ensures (Build(files, sha).Some? && Holds(Build(files, sha).value, files, sha)) <==> PrefixFree(files)
  {
    hide Lookup, Insert, LeafOf, Build;
    if PrefixFree(files) {
      PrefixFreeBuilds(files, sha);
    } else if Build(files, sha).Some? && Holds(Build(files, sha).value, files, sha) {
      var i, j :| 0 <= i < |files| && 0 <= j < |files| && i != j && Parts(files[i]) <= Parts(files[j]);
      assert files[i] in files && files[j] in files;
      LookupPrefixFree(Build(files, sha).value, Parts(files[i]), Parts(files[j]));
      JoinSplit(files[i].path, SLASH);
      JoinSplit(files[j].path, SLASH);
    }
  }

  lemma HeldElsewhere(x: map<Bytes, Node>, a: seq<File>, y: map<Bytes, Node>, b: seq<File>, q: seq<Bytes>, sha: Hash)
    requires Holds(x, a, sha) && Holds(y, b, sha) && (forall f :: f in a ==> f in b) && q != []
    ensures Lookup(x, q).Some? ==> Lookup(y, q) == Lookup(x, q)
  {
  }

  /** The trie does not depend on the order in which the files were listed. */
  lemma OrderDoesNotMatter(a: seq<File>, b: seq<File>, sha: Hash)
    requires PrefixFree(a) && PrefixFree(b) && forall f :: f in a <==> f in b
    ensures Build(a, sha) == Build(b, sha) && Build(a, sha).Some?
  {
    hide Lookup, Insert, LeafOf, Build, Parts;
    PrefixFreeBuilds(a, sha);
    PrefixFreeBuilds(b, sha);
    BuildFull(a, sha);
    BuildFull(b, sha);
    var x, y := Build(a, sha).value, Build(b, sha).value;
    forall q | q != [] ensures Lookup(x, q) == Lookup(y, q) {
      HeldElsewhere(x, a, y, b, q, sha);
      HeldElsewhere(y, b, x, a, q, sha);
    }
    SameFilesSameTrie(Dir(x), Dir(y));
  }

  // ------------------------------------------------------------------ where the order does matter

  /** No file before one with more components in its path. */
  ghost predicate DeepestFirst(files: seq<File>) {
    forall i, j :: 0 <= i < j < |files| ==> |Parts(files[i])| >= |Parts(files[j])|
  }

  /** What is found in a trie are files that were put there. */
  ghost predicate Within(entries: map<Bytes, Node>, files: seq<File>) {
    forall q :: q != [] && Lookup(entries, q).Some? ==> HasPath(files, q)
  }

  /** Deepest first, every file goes in: none built so far can be a parent of the next. */
  lemma {:induction false} DeepestFirstBuilds(files: seq<File>, sha: Hash)
    requires DeepestFirst(files)
    ensures Build(files, sha).Some? && Within(Build(files, sha).value, files)
  {
    hide Lookup, Insert, Parts, LeafOf;
    if files == [] {
      EmptyHoldsNothing();
    } else {
      var most, last := files[..|files| - 1], files[|files| - 1];
      DeepestFirstBuilds(most, sha);
      forall g | g in most ensures |Parts(g)| >= |Parts(last)| && g in files {
        var i :| 0 <= i < |most| && files[i] == g;
      }
      assert last in files;
      DeepInserts(Build(most, sha).value, most, files, last, sha);
    }
  }

  lemma NoneShorter(files: seq<File>, last: File, path: seq<Bytes>)
    requires (forall g :: g in files ==> |Parts(g)| >= |Parts(last)|) && |path| < |Parts(last)|
    ensures !HasPath(files, path)
  {
  }

  lemma DeepInserts(entries: map<Bytes, Node>, most: seq<File>, files: seq<File>, last: File, sha: Hash)
    requires Within(entries, most) && last in files
    requires forall g :: g in most ==> |Parts(g)| >= |Parts(last)| && g in files
    ensures Insert(entries, Parts(last), LeafOf(last, sha)).Some?
    ensures Within(Insert(entries, Parts(last), LeafOf(last, sha)).value, files)
  {
    hide Lookup, Insert, Parts, LeafOf;
    var p, leaf := Parts(last), LeafOf(last, sha);
    LeafIsLeaf(last, sha);
    InsertAccepts(entries, p, leaf);
    forall k | 0 < k < |p| ensures Lookup(entries, p[..k]).None? {
      NoneShorter(most, last, p[..k]);
    }
    var grown := Insert(entries, p, leaf).value;
    forall q | q != [] && Lookup(grown, q).Some? ensures HasPath(files, q) {
      InsertLookup(entries, p, leaf, q);
      if q != p {
        var g :| g in most && Parts(g) == q;
        assert g in files;
      }
    }
  }

  lemma {:induction false} SortByDepth(files: seq<File>) returns (sorted: seq<File>)
    ensures multiset(sorted) == multiset(files) && DeepestFirst(sorted)
    decreases |files|
  {
    hide Parts;
    if files == [] {
      return [];
    }
    var k := Shallowest(files);
    var others := files[..k] + files[k + 1..];
    assert files == files[..k] + [files[k]] + files[k + 1..];
    var rest := SortByDepth(others);
    sorted := rest + [files[k]];
    forall f | f in rest ensures |Parts(f)| >= |Parts(files[k])| {
      assert f in multiset(rest) && f in others;
    }
  }

  lemma Shallowest(files: seq<File>) returns (k: nat)
    requires files != []
    ensures k < |files| && forall f :: f in files ==> |Parts(f)| >= |Parts(files[k])|
  {
    hide Parts;
    k := 0;
    for n := 0 to |files|
      invariant k < |files| && forall i :: 0 <= i < n ==> |Parts(files[i])| >= |Parts(files[k])|
    {
      if |Parts(files[n])| < |Parts(files[k])| { k := n; }
    }
  }

  /** A file and then one below it cannot be built. */
  lemma ParentFirstStops(file: File, below: File, rest: seq<File>, sha: Hash)
    requires Parts(file) <= Parts(below) && Parts(file) != Parts(below)
    ensures Build([file, below] + rest, sha).None?
  {
    hide Lookup, Insert, Parts, LeafOf;
    var all := [file, below] + rest;
    var p := Parts(file);
    LeafIsLeaf(file, sha);
    LeafIsLeaf(below, sha);
    assert [file][..0] == [] && all[..2][..1] == [file] && all[..2][1] == below;
    EmptyHoldsNothing();
    InsertAccepts(map[], p, LeafOf(file, sha));
    var one := Insert(map[], p, LeafOf(file, sha)).value;
    InsertLookup(map[], p, LeafOf(file, sha), p);
    InsertAccepts(one, Parts(below), LeafOf(below, sha));
    assert Parts(below)[..|p|] == p;
    assert Build([file], sha) == Some(one);
    BuildStops(all, 2, sha);
  }

  /** Some file is not found under its path. */
  ghost predicate Loses(entries: map<Bytes, Node>, files: seq<File>, sha: Hash) {
    exists f :: f in files && Lookup(entries, Parts(f)) != Some(LeafOf(f, sha))
  }

  lemma ToFront(files: seq<File>, i: nat)
    requires i < |files|
    ensures multiset([files[i]] + Without(files, i)) == multiset(files)
  {
    assert files == files[..i] + ([files[i]] + files[i + 1..]);
  }

  /** The files with two of them moved to the front. */
  lemma MovedToFront(files: seq<File>, i: nat, j: nat) returns (rest: seq<File>)
    requires i < |files| && j < |files| && i != j
    ensures multiset([files[i], files[j]] + rest) == multiset(files)
  {
    var most := Without(files, i);
    var k := if j < i then j else j - 1;
    rest := Without(most, k);
    ToFront(files, i);
    ToFront(most, k);
    assert [files[i], files[j]] + rest == [files[i]] + ([most[k]] + rest);
  }

  /**
   * Whenever a path is another's parent, the order decides between failing and silently losing a
   * file: one arrangement of the same files cannot be built, and another is built without one of them.
   */
  lemma OrderMatters(files: seq<File>, sha: Hash) returns (failing: seq<File>, losing: seq<File>)
    requires DistinctPaths(files) && !PrefixFree(files)
    ensures multiset(failing) == multiset(files) == multiset(losing)
    ensures Build(failing, sha).None?
    ensures Build(losing, sha).Some? && Loses(Build(losing, sha).value, losing, sha)
  {
    hide Lookup, Build, LeafOf;
    var i, j :| 0 <= i < |files| && 0 <= j < |files| && i != j && Parts(files[i]) <= Parts(files[j]);
    JoinSplit(files[i].path, SLASH);
    JoinSplit(files[j].path, SLASH);
    var rest := MovedToFront(files, i, j);
    failing := [files[i], files[j]] + rest;
    ParentFirstStops(files[i], files[j], rest, sha);
    losing := SortByDepth(files);
    DeepestFirstBuilds(losing, sha);
    ParentAndChildLose(losing, files[i], files[j], sha);
  }

  lemma ParentAndChildLose(losing: seq<File>, file: File, below: File, sha: Hash)
    requires Build(losing, sha).Some? && file in multiset(losing) && below in multiset(losing)
    requires Parts(file) <= Parts(below) && Parts(file) != Parts(below)
    ensures Loses(Build(losing, sha).value, losing, sha)
  {
    hide Lookup, Build, LeafOf, Parts;
    var entries := Build(losing, sha).value;
    assert file in losing && below in losing;
    LeafIsLeaf(file, sha);
    if Lookup(entries, Parts(file)).Some? && Lookup(entries, Parts(below)).Some? {
      LookupPrefixFree(entries, Parts(file), Parts(below));
    }
  }

  /** For distinct paths, the order of listing is immaterial exactly when no path is another's parent. */
  lemma OrderMattersExactly(files: seq<File>, sha: Hash)
    requires DistinctPaths(files)
    ensures PrefixFree(files) <==>
      forall a, b :: multiset(a) == multiset(files) == multiset(b) ==> Build(a, sha) == Build(b, sha)
  {
    hide Build;
    if PrefixFree(files) {
      forall a, b | multiset(a) == multiset(files) == multiset(b) ensures Build(a, sha) == Build(b, sha) {
        PrefixFreeAnyOrder(files, a);
        PrefixFreeAnyOrder(files, b);
        forall f ensures f in a <==> f in b {
          assert f in a <==> f in multiset(a);
          assert f in b <==> f in multiset(b);
        }
        OrderDoesNotMatter(a, b, sha);
      }
    } else {
      var failing, losing := OrderMatters(files, sha);
    }
  }

  lemma PrefixFreeAnyOrder(files: seq<File>, a: seq<File>)
    requires PrefixFree(files) && multiset(a) == multiset(files)
    ensures PrefixFree(a)
  {
    hide Parts;
    forall i, j | 0 <= i < |a| && 0 <= j < |a| && i != j ensures !(Parts(a[i]) <= Parts(a[j])) {
      var lo, hi := if i < j then i else j, if i < j then j else i;
      var m, n := TwoPlaces(a, files, lo, hi);
    }
  }

  // ------------------------------------------------------------------ serialisation is unambiguous

  /** A text determines its part before the first separator and the part after it. */
  lemma FirstBreak(a: Bytes, x: Bytes, b: Bytes, y: Bytes, sep: Byte)
    requires sep !in a && sep !in b && a + [sep] + x == b + [sep] + y
    ensures a == b && x == y
  {
    var t := a + [sep] + x;
    SplitHead(a, sep, x);
    SplitHead(b, sep, y);
    assert a == Split(t, sep)[0] == b;
    assert x == t[|a| + 1..] == y;
  }

  lemma ModesDiffer(m: Option<Mode>, n: Option<Mode>)
    requires ModeBytes(m) == ModeBytes(n)
    ensures m == n
  {
    HeaderBytes();
    assert |ModeBytes(m)| == 6 ==> ModeBytes(m)[3] == if m == Some(Plain) then 54 else 55;
    assert |ModeBytes(n)| == 6 ==> ModeBytes(n)[3] == if n == Some(Plain) then 54 else 55;
  }

  /** The fixed bytes of Git's objects: "blob ", "tree ", and the modes of an entry. */
  lemma HeaderBytes()
    ensures BLOB == [98, 108, 111, 98, 32] && TREE == [116, 114, 101, 101, 32]
    ensures ModeBytes(None) == [52, 48, 48, 48, 48]
    ensures ModeBytes(Some(Plain)) == [49, 48, 48, 54, 52, 52]
    ensures ModeBytes(Some(Executable)) == [49, 48, 48, 55, 53, 53]
  {
  }

  /** The bytes that are hashed: a header with the length in decimal, and each entry's mode, name and id. */
  lemma ObjectBytes(raw: Bytes, row: Row)
    ensures BlobObject(raw) == Chars("blob ") + Digits(|raw|) + [0] + raw
    ensures TreeObject(raw) == Chars("tree ") + Digits(|raw|) + [0] + raw
    ensures RowBytes(row) ==
      Chars(match row.mode case None => "40000" case Some(Plain) => "100644" case Some(Executable) => "100755")
      + Chars(" ") + row.name + [0] + row.id
  {
    hide Digits;
    assert Chars(" ") == [SPACE];
  }

  lemma RowInjective(r: Row, x: Bytes, s: Row, y: Bytes)
    requires NUL !in r.name && NUL !in s.name && RowBytes(r) + x == RowBytes(s) + y
    ensures r == s && x == y
  {
    hide ModeBytes;
    var rest, tail := r.name + [NUL] + (r.id + x), s.name + [NUL] + (s.id + y);
    assert RowBytes(r) + x == ModeBytes(r.mode) + [SPACE] + rest;
    assert RowBytes(s) + y == ModeBytes(s.mode) + [SPACE] + tail;
    FirstBreak(ModeBytes(r.mode), rest, ModeBytes(s.mode), tail, SPACE);
    ModesDiffer(r.mode, s.mode);
    FirstBreak(r.name, r.id + x, s.name, s.id + y, NUL);
    assert r.id == (r.id + x)[..20] == (s.id + y)[..20] == s.id;
    assert x == (r.id + x)[20..] == (s.id + y)[20..] == y;
  }

  lemma {:induction false} BodyInjective(rows: seq<Row>, other: seq<Row>)
    requires forall r :: r in rows || r in other ==> NUL !in r.name
    requires Body(rows) == Body(other)
    ensures rows == other
  {
    hide RowBytes;
    if rows != [] && other != [] {
      RowInjective(rows[0], Body(rows[1..]), other[0], Body(other[1..]));
      BodyInjective(rows[1..], other[1..]);
    } else if rows != [] {
      RowIsLong(rows[0]);
    } else if other != [] {
      RowIsLong(other[0]);
    }
  }

  lemma RowIsLong(r: Row)
    ensures |RowBytes(r)| > 20
  {
  }

  lemma TreeObjectInjective(x: Bytes, y: Bytes)
    requires TreeObject(x) == TreeObject(y)
    ensures x == y
  {
    NoNul(x);
    NoNul(y);
    FirstBreak(TREE + Digits(|x|), x, TREE + Digits(|y|), y, NUL);
  }

  lemma NoNul(x: Bytes)
    ensures NUL !in TREE + Digits(|x|) && NUL !in BLOB + Digits(|x|)
  {
    hide Digits;
    var digits := Digits(|x|);
    assert NUL !in TREE && NUL !in BLOB;
    assert forall d :: d in digits ==> 48 <= d <= 57;
    assert NUL !in digits;
  }

  lemma BlobObjectInjective(x: Bytes, y: Bytes)
    requires BlobObject(x) == BlobObject(y)
    ensures x == y
  {
    NoNul(x);
    NoNul(y);
    FirstBreak(BLOB + Digits(|x|), x, BLOB + Digits(|y|), y, NUL);
  }

  // ------------------------------------------------------------------ the rows of a tree

  /** Names as Git stores them: neither a slash nor a NUL, at every level. */
  ghost predicate Clean(node: Node) {
    node.Dir? ==> forall name :: name in node.entries ==>
      NUL !in name && SLASH !in name && Clean(node.entries[name])
  }

  lemma NameOfKey(name: Bytes, node: Node)
    requires SLASH !in name
    ensures NameOf(SortKey(name, node)) == name
  {
  }

  lemma {:induction false} RowAt(node: Node, keys: seq<Bytes>, sha: Hash, i: nat)
    requires node.Dir? && i < |keys|
    ensures Rows(node, keys, sha)[i] == RowOf(node, NameOf(keys[i]), sha)
  {
    if i > 0 {
      RowAt(node, keys[1..], sha, i - 1);
    }
  }

  lemma KeyNames(node: Node, key: Bytes)
    requires node.Dir? && Clean(node) && key in SortedKeys(node.entries)
    ensures NameOf(key) in node.entries
    ensures key == SortKey(NameOf(key), node.entries[NameOf(key)])
    ensures NUL !in NameOf(key)
  {
  }

  function TreeRows(node: Node, sha: Hash): seq<Row>
    requires node.Dir?
  {
    Rows(node, SortedKeys(node.entries), sha)
  }

  /** Every entry has its row, and every row is an entry's. */
  lemma EntryRow(node: Node, name: Bytes, sha: Hash)
    requires node.Dir? && Clean(node)
    ensures name in node.entries <==> RowOf(node, name, sha) in TreeRows(node, sha)
  {
    hide SortedKeys, NameOf, SortKey;
    var keys := SortedKeys(node.entries);
    if name in node.entries {
      NameOfKey(name, node.entries[name]);
      var key := SortKey(name, node.entries[name]);
      assert key in keys;
      var i :| 0 <= i < |keys| && keys[i] == key;
      RowAt(node, keys, sha, i);
    } else if RowOf(node, name, sha) in TreeRows(node, sha) {
      var i :| 0 <= i < |keys| && TreeRows(node, sha)[i] == RowOf(node, name, sha);
      RowAt(node, keys, sha, i);
      KeyNames(node, keys[i]);
      RowName(node, name, sha);
      RowName(node, NameOf(keys[i]), sha);
    }
  }

  lemma RowName(node: Node, name: Bytes, sha: Hash)
    requires node.Dir?
    ensures RowOf(node, name, sha).name == name
    ensures name in node.entries ==> RowOf(node, name, sha).mode.None? == node.entries[name].Dir?
  {
  }

  lemma RowsClean(node: Node, sha: Hash)
    requires node.Dir? && Clean(node)
    ensures forall r :: r in TreeRows(node, sha) ==> NUL !in r.name && r == RowOf(node, r.name, sha)
  {
    hide NameOf, RowOf;
    var keys := SortedKeys(node.entries);
    forall i | 0 <= i < |keys|
      ensures NUL !in TreeRows(node, sha)[i].name
      ensures TreeRows(node, sha)[i] == RowOf(node, TreeRows(node, sha)[i].name, sha)
    {
      RowAt(node, keys, sha, i);
      KeyNames(node, keys[i]);
      RowName(node, NameOf(keys[i]), sha);
    }
  }

  /** Rows stand in Git's order: names compared as bytes, a directory's with a slash added. */
  lemma RowsInOrder(node: Node, sha: Hash, i: nat, j: nat)
    requires node.Dir? && Clean(node) && i < j < |TreeRows(node, sha)|
    ensures var r, s := TreeRows(node, sha)[i], TreeRows(node, sha)[j];
      Order.Less(if r.mode.None? then r.name + [SLASH] else r.name, if s.mode.None? then s.name + [SLASH] else s.name)
  {
    hide NameOf;
    var keys := SortedKeys(node.entries);
    RowAt(node, keys, sha, i);
    RowAt(node, keys, sha, j);
    KeyNames(node, keys[i]);
    KeyNames(node, keys[j]);
    assert Order.Less(keys[i], keys[j]);
  }

  // ------------------------------------------------------------------ equal ids, equal trees

  /** Every tree object hashed on the way to a directory's id. */
  ghost function Objects(node: Node, sha: Hash): set<Bytes>
    requires node.Dir?
    decreases node
  {
    {TreeObject(Body(TreeRows(node, sha)))}
    + set name, o | name in node.entries && node.entries[name].Dir? && o in Objects(node.entries[name], sha) :: o
  }

  ghost predicate NoCollision(hashed: set<Bytes>, sha: Hash) {
    forall x, y :: x in hashed && y in hashed && sha(x) == sha(y) ==> x == y
  }

  lemma SameRows(a: Node, b: Node, sha: Hash)
    requires a.Dir? && b.Dir? && Clean(a) && Clean(b)
    requires NoCollision(Objects(a, sha) + Objects(b, sha), sha) && TreeId(a, sha) == TreeId(b, sha)
    ensures TreeRows(a, sha) == TreeRows(b, sha)
  {
    hide TreeObject, Body, Rows, SortedKeys, Clean;
    var x, y := TreeObject(Body(TreeRows(a, sha))), TreeObject(Body(TreeRows(b, sha)));
    assert x in Objects(a, sha) && y in Objects(b, sha);
    assert sha(x) == sha(y);
    TreeObjectInjective(Body(TreeRows(a, sha)), Body(TreeRows(b, sha)));
    RowsClean(a, sha);
    RowsClean(b, sha);
    BodyInjective(TreeRows(a, sha), TreeRows(b, sha));
  }

  lemma SameEntry(a: Node, b: Node, sha: Hash, name: Bytes)
    requires a.Dir? && b.Dir? && Clean(a) && Clean(b) && TreeRows(a, sha) == TreeRows(b, sha)
    requires name in a.entries
    ensures name in b.entries && RowOf(a, name, sha) == RowOf(b, name, sha)
  {
    hide TreeRows, RowOf, Clean;
    EntryRow(a, name, sha);
    RowsClean(b, sha);
    RowName(a, name, sha);
    EntryRow(b, name, sha);
  }

  lemma FewerObjects(a: Node, name: Bytes, sha: Hash)
    requires a.Dir? && name in a.entries && a.entries[name].Dir?
    ensures Objects(a.entries[name], sha) <= Objects(a, sha)
  {
  }

  /** Equal ids of clean directories without a hash collision: equal directories. */
  lemma {:induction false} TreeIdInjective(a: Node, b: Node, sha: Hash)
    requires a.Dir? && b.Dir? && Clean(a) && Clean(b)
    requires NoCollision(Objects(a, sha) + Objects(b, sha), sha) && TreeId(a, sha) == TreeId(b, sha)
    ensures a == b
    decreases a
  {
    hide TreeRows, Objects, TreeId;
    SameRows(a, b, sha);
    forall name | name in a.entries ensures name in b.entries && a.entries[name] == b.entries[name] {
      SameEntry(a, b, sha, name);
      if a.entries[name].Dir? {
        FewerObjects(a, name, sha);
        FewerObjects(b, name, sha);
        TreeIdInjective(a.entries[name], b.entries[name], sha);
      }
    }
    forall name | name in b.entries ensures name in a.entries {
      SameEntry(b, a, sha, name);
    }
    assert a.entries.Keys == b.entries.Keys;
    assert a.entries == b.entries;
  }

  // ------------------------------------------------------------------ equal ids, equal files

  ghost predicate Nameable(files: seq<File>) {
    forall f :: f in files ==> NUL !in f.path
  }

  lemma {:induction false} PartsClean(path: Bytes)
    requires NUL !in path
    ensures forall part :: part in Split(path, SLASH) ==> NUL !in part && SLASH !in part
  {
    if path != [] {
      PartsClean(path[1..]);
      var rest := Split(path[1..], SLASH);
      assert rest[0] in rest && forall part :: part in rest[1..] ==> part in rest;
    }
  }

  lemma {:induction false} InsertClean(entries: map<Bytes, Node>, p: seq<Bytes>, leaf: Node)
    requires p != [] && leaf.Leaf? && Clean(Dir(entries)) && Insert(entries, p, leaf).Some?
    requires forall part :: part in p ==> NUL !in part && SLASH !in part
    ensures Clean(Dir(Insert(entries, p, leaf).value))
    decreases |p|
  {
    if |p| > 1 {
      var child := if p[0] in entries then entries[p[0]] else Dir(map[]);
      assert Clean(child);
      assert child == Dir(child.entries);
      InsertClean(child.entries, p[1..], leaf);
    }
  }

  lemma {:induction false} BuildClean(files: seq<File>, sha: Hash)
    requires Nameable(files) && Build(files, sha).Some?
    ensures Clean(Dir(Build(files, sha).value))
  {
    if files != [] {
      var most, last := files[..|files| - 1], files[|files| - 1];
      BuildClean(most, sha);
      PartsClean(last.path);
      InsertClean(Build(most, sha).value, Parts(last), LeafOf(last, sha));
    }
  }

  /** Everything hashed for a tree id: the files' blobs and the tree objects. */
  ghost function Hashed(files: seq<File>, sha: Hash): set<Bytes> {
    (set f | f in files :: BlobObject(f.raw))
    + (if Build(files, sha).Some? then Objects(Dir(Build(files, sha).value), sha) else {})
  }

  lemma SameLeaf(f: File, g: File, sha: Hash)
    requires Parts(f) == Parts(g) && LeafOf(f, sha) == LeafOf(g, sha)
    requires sha(BlobObject(f.raw)) == sha(BlobObject(g.raw)) ==> BlobObject(f.raw) == BlobObject(g.raw)
    ensures f == g
  {
    JoinSplit(f.path, SLASH);
    JoinSplit(g.path, SLASH);
    BlobObjectInjective(f.raw, g.raw);
  }

  lemma FilesOfTrie(a: seq<File>, b: seq<File>, sha: Hash, f: File)
    requires PrefixFree(a) && PrefixFree(b) && Build(a, sha) == Build(b, sha)
    requires NoCollision(Hashed(a, sha) + Hashed(b, sha), sha) && f in a
    ensures f in b
  {
    hide Lookup, Insert, LeafOf, Build, Parts, BlobObject, Objects;
    PrefixFreeBuilds(a, sha);
    PrefixFreeBuilds(b, sha);
    LeafIsLeaf(f, sha);
    assert Lookup(Build(a, sha).value, Parts(f)).Some?;
    assert HasPath(b, Parts(f));
    var g :| g in b && Parts(g) == Parts(f);
    assert BlobObject(f.raw) in Hashed(a, sha) && BlobObject(g.raw) in Hashed(b, sha);
    SameLeaf(f, g, sha);
  }

  /** Two sets of prefix-free files have one tree id exactly when they are the same files. */
  lemma TreeIdFixesFiles(a: seq<File>, b: seq<File>, sha: Hash)
    requires PrefixFree(a) && PrefixFree(b) && Nameable(a) && Nameable(b)
    requires NoCollision(Hashed(a, sha) + Hashed(b, sha), sha)
    ensures FilesId(a, sha).Some? && FilesId(b, sha).Some?
    ensures FilesId(a, sha) == FilesId(b, sha) <==> (forall f :: f in a <==> f in b)
  {
    hide PrefixFree, Build, Objects, BlobObject, TreeId, Holds;
    PrefixFreeBuilds(a, sha);
    PrefixFreeBuilds(b, sha);
    BuildClean(a, sha);
    BuildClean(b, sha);
    if FilesId(a, sha) == FilesId(b, sha) {
      TreeIdInjective(Dir(Build(a, sha).value), Dir(Build(b, sha).value), sha);
      forall f | f in a ensures f in b { FilesOfTrie(a, b, sha, f); }
      forall f | f in b ensures f in a { FilesOfTrie(b, a, sha, f); }
    } else if forall f :: f in a <==> f in b {
      OrderDoesNotMatter(a, b, sha);
    }
  }
}
