/** The file bindings of a receipt: what the writer records and what `_outputs` rebuilds from it. */
module Receipts {
  import opened Prelude
  import opened Paths
  import opened VsaPrefix
  import opened Delivery
  import Patches

  /** A recorded deletion; a missing digest is refused. */
  datatype Deletion<+D> = Deletion(path: string, digest: Option<D>)

  /** A resolved dependency, by its role. */
  datatype Dependency<+D> =
    | Base(tree: Option<string>, commit: Option<string>, created: seq<string>, deleted: seq<Deletion<D>>)
    | BeforeImage(name: string, digest: D)
    | Other

  /** The statements of a receipt that name files; the summary is optional. */
  datatype Receipt<+D> = Receipt(
    provenance: seq<Subject<D>>, tests: seq<seq<Subject<D>>>, bom: seq<Subject<D>>,
    vsa: Option<seq<Subject<D>>>, dependencies: seq<Dependency<D>>)

  /** What a verified receipt binds. */
  datatype Bound<D> = Bound(
    subjects: map<string, D>, before: map<string, Option<D>>, deleted: map<string, D>,
    commit: Option<string>, prefix: string)

  // ------------------------------------------------------------------ the verifier

  /** `subjects_of`: a nonempty table of safe, distinct names. */
  function SubjectsOf<D>(list: seq<Subject<D>>, fold: Fold): Option<map<string, D>> {
    if list == [] then None else Table(list, fold)
  }

  function Table<D>(list: seq<Subject<D>>, fold: Fold): Option<map<string, D>> {
    if list == [] then Some(map[])
    else
      var last := list[|list| - 1];
      match Table(list[..|list| - 1], fold)
      case None => None
      case Some(m) => if !SafePath(last.name, fold) || last.name in m then None else Some(m[last.name := last.digest])
  }

  /** The before-image dependencies, as a table. */
  function Images<D>(dependencies: seq<Dependency<D>>, fold: Fold): Option<map<string, Option<D>>> {
    if dependencies == [] then Some(map[])
    else
      var last := dependencies[|dependencies| - 1];
      match Images(dependencies[..|dependencies| - 1], fold)
      case None => None
      case Some(m) =>
        if !last.BeforeImage? then Some(m)
        else if !SafePath(last.name, fold) || last.name in m then None
        else Some(m[last.name := Some(last.digest)])
  }

  /** The table after the created paths are entered with no before-image. */
  function Created<D>(created: seq<string>, before: map<string, Option<D>>, fold: Fold)
    : Option<map<string, Option<D>>> {
    if created == [] then Some(before)
    else
      var last := created[|created| - 1];
      match Created(created[..|created| - 1], before, fold)
      case None => None
      case Some(m) => if !SafePath(last, fold) || last in m then None else Some(m[last := None])
  }

  /** The deletions, each of an undelivered path with exactly its recorded before-image. */
  function Removed<D(==)>(deleted: seq<Deletion<D>>, subjects: map<string, D>, before: map<string, Option<D>>,
                          fold: Fold): Option<map<string, D>>
  {
    if deleted == [] then Some(map[])
    else
      var last := deleted[|deleted| - 1];
      match Removed(deleted[..|deleted| - 1], subjects, before, fold)
      case None => None
      case Some(m) =>
        if SafePath(last.path, fold) && last.path !in subjects && last.path !in m
           && last.digest.Some? && last.path in before && before[last.path] == last.digest
        then Some(m[last.path := last.digest.value])
        else None
  }

  function Bases<D>(dependencies: seq<Dependency<D>>): seq<Dependency<D>> {
    if dependencies == [] then []
    else
      var init, last := Bases(dependencies[..|dependencies| - 1]), dependencies[|dependencies| - 1];
      if last.Base? then init + [last] else init
  }

  predicate GoodBase<D>(base: Dependency<D>)
    requires base.Base?
  {
    (base.tree.Some? ==> Patches.IsId(base.tree.value)) && (base.commit.Some? ==> Patches.IsId(base.commit.value))
  }

  /** Every conjunct of `_outputs` but the summary's prefix. */
  predicate Consistent<D(==)>(r: Receipt<D>, b: Bound<D>, fold: Fold) {
    var bases := Bases(r.dependencies);
    && SubjectsOf(r.provenance, fold) == Some(b.subjects)
    && (forall i :: 0 <= i < |r.tests| ==> SubjectsOf(r.tests[i], fold) == Some(b.subjects))
    && SubjectsOf(r.bom, fold) == Some(b.subjects)
    && |bases| == 1 && bases[0].Base? && GoodBase(bases[0]) && b.commit == bases[0].commit
    && Images(r.dependencies, fold).Some?
    && Created(bases[0].created, Images(r.dependencies, fold).value, fold) == Some(b.before)
    && Removed(bases[0].deleted, b.subjects, b.before, fold) == Some(b.deleted)
    && b.subjects.Keys + b.deleted.Keys == b.before.Keys
  }

  /** The summary, if there is one, places exactly the subjects under the prefix. */
  predicate Summarised<D(==)>(r: Receipt<D>, b: Bound<D>, fold: Fold) {
    match r.vsa
    case None => b.prefix == ""
    case Some(list) =>
      SubjectsOf(list, fold).Some? && Placed(b.prefix, r.provenance, SubjectsOf(list, fold).value)
      && Directory(b.prefix) && Unambiguous(b.prefix, r.provenance)
  }

  method ReadTable<D(==)>(list: seq<Subject<D>>, fold: Fold) returns (r: Option<map<string, D>>)
    ensures r == SubjectsOf(list, fold)
    ensures r.Some? ==> DistinctNames(list)
  {
    hide SafePath;
    if list == [] {
      return None;
    }
    var table: map<string, D> := map[];
    for i := 0 to |list|
      invariant Table(list[..i], fold) == Some(table)
      invariant table.Keys == set k | 0 <= k < i :: list[k].name
      invariant forall j, k :: 0 <= j < k < i ==> list[j].name != list[k].name
    {
      assert list[..i + 1][..i] == list[..i];
      if !SafePath(list[i].name, fold) || list[i].name in table {
        TableStops(list, i + 1, fold);
        return None;
      }
      table := table[list[i].name := list[i].digest];
    }
    assert list[..|list|] == list;
    return Some(table);
  }

  lemma {:induction false} TableStops<D>(list: seq<Subject<D>>, k: nat, fold: Fold)
    requires k <= |list| && Table(list[..k], fold).None?
    ensures Table(list, fold).None?
  {
    if k == |list| {
      assert list[..k] == list;
    } else {
      assert list[..|list| - 1][..k] == list[..k];
      TableStops(list[..|list| - 1], k, fold);
    }
  }

  /** The before-image rows of the dependencies. */
  method ReadImages<D>(dependencies: seq<Dependency<D>>, fold: Fold) returns (r: Option<map<string, Option<D>>>)
    ensures r == Images(dependencies, fold)
  {
    var before: map<string, Option<D>> := map[];
    for i := 0 to |dependencies|
      invariant Images(dependencies[..i], fold) == Some(before)
    {
      assert dependencies[..i + 1][..i] == dependencies[..i];
      var item := dependencies[i];
      if item.BeforeImage? {
        if !SafePath(item.name, fold) || item.name in before {
          ImagesStop(dependencies, i + 1, fold);
          return None;
        }
        before := before[item.name := Some(item.digest)];
      }
    }
    assert dependencies[..|dependencies|] == dependencies;
    return Some(before);
  }

  lemma {:induction false} ImagesStop<D>(dependencies: seq<Dependency<D>>, k: nat, fold: Fold)
    requires k <= |dependencies| && Images(dependencies[..k], fold).None?
    ensures Images(dependencies, fold).None?
  {
    if k == |dependencies| {
      assert dependencies[..k] == dependencies;
    } else {
      assert dependencies[..|dependencies| - 1][..k] == dependencies[..k];
      ImagesStop(dependencies[..|dependencies| - 1], k, fold);
    }
  }

  method ReadCreated<D>(created: seq<string>, images: map<string, Option<D>>, fold: Fold)
    returns (r: Option<map<string, Option<D>>>)
    ensures r == Created(created, images, fold)
  {
    var before := images;
    for i := 0 to |created|
      invariant Created(created[..i], images, fold) == Some(before)
    {
      assert created[..i + 1][..i] == created[..i];
      if !SafePath(created[i], fold) || created[i] in before {
        CreatedStops(created, i + 1, images, fold);
        return None;
      }
      before := before[created[i] := None];
    }
    assert created[..|created|] == created;
    return Some(before);
  }

  lemma {:induction false} CreatedStops<D>(created: seq<string>, k: nat, images: map<string, Option<D>>, fold: Fold)
    requires k <= |created| && Created(created[..k], images, fold).None?
    ensures Created(created, images, fold).None?
  {
    if k == |created| {
      assert created[..k] == created;
    } else {
      assert created[..|created| - 1][..k] == created[..k];
      CreatedStops(created[..|created| - 1], k, images, fold);
    }
  }

  method ReadRemoved<D(==)>(deleted: seq<Deletion<D>>, subjects: map<string, D>, before: map<string, Option<D>>,
                            fold: Fold) returns (r: Option<map<string, D>>)
    ensures r == Removed(deleted, subjects, before, fold)
  {
    var removed: map<string, D> := map[];
    for i := 0 to |deleted|
      invariant Removed(deleted[..i], subjects, before, fold) == Some(removed)
    {
      assert deleted[..i + 1][..i] == deleted[..i];
      var item := deleted[i];
      if !SafePath(item.path, fold) || item.path in subjects || item.path in removed
         || item.path !in before || before[item.path] != item.digest || item.digest.None? {
        RemovedStops(deleted, i + 1, subjects, before, fold);
        return None;
      }
      removed := removed[item.path := item.digest.value];
    }
    assert deleted[..|deleted|] == deleted;
    return Some(removed);
  }

  lemma {:induction false} RemovedStops<D>(deleted: seq<Deletion<D>>, k: nat, subjects: map<string, D>,
                                           before: map<string, Option<D>>, fold: Fold)
    requires k <= |deleted| && Removed(deleted[..k], subjects, before, fold).None?
    ensures Removed(deleted, subjects, before, fold).None?
  {
    if k == |deleted| {
      assert deleted[..k] == deleted;
    } else {
      assert deleted[..|deleted| - 1][..k] == deleted[..k];
      RemovedStops(deleted[..|deleted| - 1], k, subjects, before, fold);
    }
  }

  /** `_outputs`: accepted exactly when everything is consistent, and then the tables are these. */
  method CheckOutputs<D(==)>(r: Receipt<D>, fold: Fold) returns (b: Option<Bound<D>>)
    ensures b.Some? ==> Consistent(r, b.value, fold) && Summarised(r, b.value, fold)
    ensures b.None? ==> forall c :: !(Consistent(r, c, fold) && Summarised(r, c, fold))
  {
    hide SubjectsOf, Images, Created, Removed, Bases, GoodBase, Placed, Directory, Unambiguous, DistinctNames;
    var subjects := ReadTable(r.provenance, fold);
    if subjects.None? {
      return None;
    }
    for i := 0 to |r.tests|
      invariant forall k :: 0 <= k < i ==> SubjectsOf(r.tests[k], fold) == subjects
    {
      var test := ReadTable(r.tests[i], fold);
      if test != subjects {
        return None;
      }
    }
    var bom := ReadTable(r.bom, fold);
    if bom != subjects {
      return None;
    }
    var prefix := "";
    if r.vsa.Some? {
      var vsa := ReadTable(r.vsa.value, fold);
      if vsa.None? {
        return None;
      }
      NonemptyTable(r.provenance, fold);
      var found := FindPrefix(vsa.value, r.provenance);
      if found.None? {
        return None;
      }
      prefix := found.value;
    }
    var bases := Bases(r.dependencies);
    if |bases| != 1 || !bases[0].Base? || !GoodBase(bases[0]) {
      return None;
    }
    var images := ReadImages(r.dependencies, fold);
    if images.None? {
      return None;
    }
    var before := ReadCreated(bases[0].created, images.value, fold);
    if before.None? {
      return None;
    }
    var removed := ReadRemoved(bases[0].deleted, subjects.value, before.value, fold);
    if removed.None? || subjects.value.Keys + removed.value.Keys != before.value.Keys {
      return None;
    }
    return Some(Bound(subjects.value, before.value, removed.value, bases[0].commit, prefix));
  }

  lemma NonemptyTable<D>(list: seq<Subject<D>>, fold: Fold)
    requires SubjectsOf(list, fold).Some?
    ensures list != []
  {
  }

  // ------------------------------------------------------------------ which tables are read

  /** Subjects make a table exactly when their names are safe and distinct; it holds each digest under its name. */
  lemma {:induction false} TableExactly<D>(list: seq<Subject<D>>, fold: Fold)
    ensures Table(list, fold).Some? <==>
      && (forall i :: 0 <= i < |list| ==> SafePath(list[i].name, fold))
      && (forall i, j :: 0 <= i < j < |list| ==> list[i].name != list[j].name)
    ensures Table(list, fold).Some? ==>
      && (forall i :: 0 <= i < |list| ==> Holds(Table(list, fold).value, list[i].name, list[i].digest))
      && (forall p :: p in Table(list, fold).value ==> exists i :: 0 <= i < |list| && list[i].name == p)
  {
    hide SafePath;
    if list != [] {
      var init, last := list[..|list| - 1], |list| - 1;
      TableExactly(init, fold);
      assert forall i :: 0 <= i < last ==> init[i] == list[i];
      if Table(init, fold).Some? && list[last].name in Table(init, fold).value {
        var i :| 0 <= i < last && init[i].name == list[last].name;
        assert list[i].name == list[last].name;
      }
    }
  }

  predicate Holds<D(==)>(m: map<string, D>, p: string, d: D) { p in m && m[p] == d }

  /** So do before-images, and other dependencies do not matter. */
  lemma {:induction false} ImagesExactly<D>(list: seq<Dependency<D>>, fold: Fold)
    ensures Images(list, fold).Some? <==>
      && (forall i :: 0 <= i < |list| && list[i].BeforeImage? ==> SafePath(list[i].name, fold))
      && (forall i, j :: 0 <= i < j < |list| && list[i].BeforeImage? && list[j].BeforeImage? ==>
            list[i].name != list[j].name)
    ensures Images(list, fold).Some? ==>
      && (forall i :: 0 <= i < |list| && list[i].BeforeImage? ==>
            Holds(Images(list, fold).value, list[i].name, Some(list[i].digest)))
      && (forall p :: p in Images(list, fold).value ==> ImageOf(list, p))
  {
    hide SafePath;
    if list != [] {
      var init, last := list[..|list| - 1], |list| - 1;
      ImagesExactly(init, fold);
      assert forall i :: 0 <= i < last ==> init[i] == list[i];
      forall p ensures ImageOf(list, p) <==> ImageOf(init, p) || (list[last].BeforeImage? && list[last].name == p) {
      }
      if Images(init, fold).Some? && list[last].BeforeImage? && list[last].name in Images(init, fold).value {
        var i :| 0 <= i < last && init[i].BeforeImage? && init[i].name == list[last].name;
        assert list[i].name == list[last].name;
      }
    }
  }

  predicate ImageOf<D>(list: seq<Dependency<D>>, p: string) {
    exists i :: 0 <= i < |list| && list[i].BeforeImage? && list[i].name == p
  }

  /** Created paths are entered exactly when they are safe, distinct and without a before-image. */
  lemma {:induction false} CreatedExactly<D>(list: seq<string>, before: map<string, Option<D>>, fold: Fold)
    ensures Created(list, before, fold).Some? <==>
      && (forall i :: 0 <= i < |list| ==> SafePath(list[i], fold) && list[i] !in before)
      && (forall i, j :: 0 <= i < j < |list| ==> list[i] != list[j])
    ensures Created(list, before, fold).Some? ==> Created(list, before, fold).value == Entered(list, before)
  {
    hide SafePath, Entered;
    EnteredNext(list, before);
    if list != [] {
      var init, last := list[..|list| - 1], |list| - 1;
      CreatedExactly(init, before, fold);
      assert forall i :: 0 <= i < last ==> init[i] == list[i];
      assert list[last] in Entered(init, before) ==> list[last] in before || list[last] in init;
    }
  }

  function Entered<D>(list: seq<string>, before: map<string, Option<D>>): map<string, Option<D>> {
    before + map p | p in list :: None
  }

  lemma EnteredNext<D>(list: seq<string>, before: map<string, Option<D>>)
    ensures list == [] ==> Entered(list, before) == before
    ensures list != [] ==>
      var init, last := list[..|list| - 1], list[|list| - 1];
      && Entered(list, before) == Entered(init, before)[last := None]
      && (forall p :: p in Entered(init, before) <==> p in before || p in init)
  {
    if list != [] {
      assert list == list[..|list| - 1] + [list[|list| - 1]];
    }
  }

  /** A deletion that is fit to be recorded: of a safe, undelivered path, with its before-image's digest. */
  predicate Deletable<D(==)>(d: Deletion<D>, subjects: map<string, D>, before: map<string, Option<D>>, fold: Fold) {
    && SafePath(d.path, fold) && d.path !in subjects && d.digest.Some?
    && d.path in before && before[d.path] == d.digest
  }

  /** Deletions are read exactly when each is fit and their paths are distinct. */
  lemma {:induction false} RemovedExactly<D>(list: seq<Deletion<D>>, subjects: map<string, D>,
                                             before: map<string, Option<D>>, fold: Fold)
    ensures Removed(list, subjects, before, fold).Some? <==>
      && (forall i :: 0 <= i < |list| ==> Deletable(list[i], subjects, before, fold))
      && (forall i, j :: 0 <= i < j < |list| ==> list[i].path != list[j].path)
    ensures Removed(list, subjects, before, fold).Some? ==>
      && (forall i :: 0 <= i < |list| && list[i].digest.Some? ==>
            Holds(Removed(list, subjects, before, fold).value, list[i].path, list[i].digest.value))
      && (forall p :: p in Removed(list, subjects, before, fold).value ==>
            exists i :: 0 <= i < |list| && list[i].path == p)
  {
    hide SafePath, Removed, Deletable;
    RemovedUnfolds(list, subjects, before, fold);
    if list != [] {
      var init, last := list[..|list| - 1], |list| - 1;
      RemovedExactly(init, subjects, before, fold);
      assert forall i :: 0 <= i < last ==> init[i] == list[i];
      if Removed(init, subjects, before, fold).Some? && list[last].path in Removed(init, subjects, before, fold).value {
        var i :| 0 <= i < last && init[i].path == list[last].path;
        assert list[i].path == list[last].path;
      }
    }
  }

  lemma RemovedUnfolds<D>(list: seq<Deletion<D>>, subjects: map<string, D>, before: map<string, Option<D>>, fold: Fold)
    ensures forall d: Deletion<D> :: Deletable(d, subjects, before, fold) ==> d.digest.Some?
    ensures list == [] ==> Removed(list, subjects, before, fold) == Some(map[])
    ensures list != [] ==>
      var m, d := Removed(list[..|list| - 1], subjects, before, fold), list[|list| - 1];
      Removed(list, subjects, before, fold) ==
      if m.Some? && Deletable(d, subjects, before, fold) && d.path !in m.value
      then Some(m.value[d.path := d.digest.value]) else None
  {
    hide SafePath;
  }

  /** The base descriptors are exactly the dependencies that are one, in order. */
  lemma {:induction false} BasesExactly<D>(list: seq<Dependency<D>>)
    ensures forall i :: 0 <= i < |Bases(list)| ==> Bases(list)[i] in list && Bases(list)[i].Base?
    ensures forall i :: 0 <= i < |list| && list[i].Base? ==> list[i] in Bases(list)
    ensures |Bases(list)| == 1 <==> exists i :: OnlyBase(list, i)
  {
    if list != [] {
      var init, last := list[..|list| - 1], |list| - 1;
      BasesExactly(init);
      assert list == init + [list[last]];
      assert forall i :: 0 <= i < last ==> init[i] == list[i];
      if list[last].Base? {
        if Bases(init) == [] {
          assert forall i :: 0 <= i < last ==> init[i] in init;
        } else {
          assert Bases(init)[0] in init && Bases(init)[0].Base?;
        }
        assert Bases(init) == [] ==> OnlyBase(list, last);
        assert forall i :: OnlyBase(list, i) ==> i == last;
      } else {
        assert forall i :: OnlyBase(list, i) <==> OnlyBase(init, i);
      }
    }
  }

  predicate OnlyBase<D>(list: seq<Dependency<D>>, i: int) {
    0 <= i < |list| && list[i].Base? && forall j :: 0 <= j < |list| && list[j].Base? ==> i == j
  }

  // ------------------------------------------------------------------ which receipts are accepted

  /** `m` is the table of these subjects: some, safe and distinct, each with its digest, and nothing else. */
  ghost predicate Tabulates<D>(list: seq<Subject<D>>, m: map<string, D>, fold: Fold) {
    && list != []
    && (forall i :: 0 <= i < |list| ==> SafePath(list[i].name, fold) && Holds(m, list[i].name, list[i].digest))
    && (forall i, j :: 0 <= i < j < |list| ==> list[i].name != list[j].name)
    && (forall p :: p in m ==> exists i :: 0 <= i < |list| && list[i].name == p)
  }

  /** `m` holds the before-images among these dependencies, safe and distinct, and nothing else. */
  ghost predicate Depicts<D>(list: seq<Dependency<D>>, m: map<string, Option<D>>, fold: Fold) {
    && (forall i :: 0 <= i < |list| && list[i].BeforeImage? ==>
          SafePath(list[i].name, fold) && Holds(m, list[i].name, Some(list[i].digest)))
    && (forall i, j :: 0 <= i < j < |list| && list[i].BeforeImage? && list[j].BeforeImage? ==>
          list[i].name != list[j].name)
    && (forall p :: p in m ==> ImageOf(list, p))
  }

  /** `m` holds these deletions, all fit and of different paths, and nothing else. */
  ghost predicate Deletes<D>(list: seq<Deletion<D>>, subjects: map<string, D>, before: map<string, Option<D>>,
                             m: map<string, D>, fold: Fold) {
    && (forall i :: 0 <= i < |list| ==>
          Deletable(list[i], subjects, before, fold) && list[i].digest.Some?
          && Holds(m, list[i].path, list[i].digest.value))
    && (forall i, j :: 0 <= i < j < |list| ==> list[i].path != list[j].path)
    && (forall p :: p in m ==> exists i :: 0 <= i < |list| && list[i].path == p)
  }

  lemma SubjectsExactly<D>(list: seq<Subject<D>>, m: map<string, D>, fold: Fold)
    ensures SubjectsOf(list, fold) == Some(m) <==> Tabulates(list, m, fold)
  {
    hide SafePath, Table;
    TableExactly(list, fold);
    if Tabulates(list, m, fold) {
      var t := Table(list, fold).value;
      assert forall i :: 0 <= i < |list| ==> Holds(t, list[i].name, list[i].digest);
      assert forall p :: p in t <==> p in m;
      forall p | p in t ensures t[p] == m[p] {
        var i :| 0 <= i < |list| && list[i].name == p;
        assert Holds(t, list[i].name, list[i].digest) && Holds(m, list[i].name, list[i].digest);
      }
      assert t == m;
    }
  }

  lemma DepictsExactly<D>(list: seq<Dependency<D>>, m: map<string, Option<D>>, fold: Fold)
    ensures Images(list, fold) == Some(m) <==> Depicts(list, m, fold)
  {
    hide SafePath, Images;
    ImagesExactly(list, fold);
    if Depicts(list, m, fold) {
      var t := Images(list, fold).value;
      forall p | p in t || p in m ensures p in t && p in m && t[p] == m[p] {
        assert ImageOf(list, p);
        var i :| 0 <= i < |list| && list[i].BeforeImage? && list[i].name == p;
        assert Holds(t, list[i].name, Some(list[i].digest)) && Holds(m, list[i].name, Some(list[i].digest));
      }
      assert t == m;
    }
  }

  lemma DeletesExactly<D>(list: seq<Deletion<D>>, subjects: map<string, D>, before: map<string, Option<D>>,
                          m: map<string, D>, fold: Fold)
    ensures Removed(list, subjects, before, fold) == Some(m) <==> Deletes(list, subjects, before, m, fold)
  {
    hide SafePath, Removed;
    RemovedExactly(list, subjects, before, fold);
    if Deletes(list, subjects, before, m, fold) {
      var t := Removed(list, subjects, before, fold).value;
      forall p | p in t || p in m ensures p in t && p in m && t[p] == m[p] {
        var i :| 0 <= i < |list| && list[i].path == p;
        assert Holds(t, list[i].path, list[i].digest.value) && Holds(m, list[i].path, list[i].digest.value);
      }
      assert t == m;
    }
  }

  /** A Git object id: forty lower-case hexadecimal digits. */
  predicate FortyHex(id: string) {
    |id| == 40 && forall k :: 0 <= k < 40 ==> '0' <= id[k] <= '9' || 'a' <= id[k] <= 'f'
  }

  /** What the one base descriptor says, and the tables it completes. */
  ghost predicate Completes<D>(base: Dependency<D>, b: Bound<D>, images: map<string, Option<D>>, fold: Fold) {
    && base.Base? && b.commit == base.commit
    && (base.tree.Some? ==> FortyHex(base.tree.value)) && (base.commit.Some? ==> FortyHex(base.commit.value))
    && (forall i :: 0 <= i < |base.created| ==> SafePath(base.created[i], fold) && base.created[i] !in images)
    && (forall i, j :: 0 <= i < j < |base.created| ==> base.created[i] != base.created[j])
    && b.before == Entered(base.created, images)
    && Deletes(base.deleted, b.subjects, b.before, b.deleted, fold)
  }

  /** The one base descriptor among these dependencies completes their before-images. */
  ghost predicate Founded<D(!new)>(list: seq<Dependency<D>>, b: Bound<D>, fold: Fold) {
    exists k, images :: OnlyBase(list, k) && Depicts(list, images, fold) && Completes(list[k], b, images, fold)
  }

  lemma FoundedExactly<D(!new)>(list: seq<Dependency<D>>, b: Bound<D>, fold: Fold)
    ensures Founded(list, b, fold) <==>
      var bases := Bases(list);
      && |bases| == 1 && bases[0].Base? && GoodBase(bases[0]) && b.commit == bases[0].commit
      && Images(list, fold).Some? && Created(bases[0].created, Images(list, fold).value, fold) == Some(b.before)
      && Removed(bases[0].deleted, b.subjects, b.before, fold) == Some(b.deleted)
  {
    hide SafePath, Images, Created, Removed, Depicts, Completes, Bases, GoodBase;
    BasesExactly(list);
    if Founded(list, b, fold) {
      var k, images :| OnlyBase(list, k) && Depicts(list, images, fold) && Completes(list[k], b, images, fold);
      DepictsExactly(list, images, fold);
      OneBaseIs(list, k);
      BaseExactly(list[k], b, images, fold);
    } else if |Bases(list)| == 1 && Images(list, fold).Some? {
      var k :| OnlyBase(list, k);
      var images := Images(list, fold).value;
      DepictsExactly(list, images, fold);
      OneBaseIs(list, k);
      BaseExactly(list[k], b, images, fold);
    }
  }

  /**
   * The receipts that are consistent, said of their own lists: every statement has the same subjects,
   * one base descriptor completes the before-images, and these cover exactly the delivered and the
   * deleted files.
   */
  lemma ConsistentExactly<D(!new)>(r: Receipt<D>, b: Bound<D>, fold: Fold)
    ensures Consistent(r, b, fold) <==>
      && Tabulates(r.provenance, b.subjects, fold) && Tabulates(r.bom, b.subjects, fold)
      && (forall i :: 0 <= i < |r.tests| ==> Tabulates(r.tests[i], b.subjects, fold))
      && Founded(r.dependencies, b, fold) && b.before.Keys == b.subjects.Keys + b.deleted.Keys
  {
    hide SafePath, SubjectsOf, Images, Created, Removed, Tabulates, Founded, Bases, GoodBase;
    SubjectsExactly(r.provenance, b.subjects, fold);
    SubjectsExactly(r.bom, b.subjects, fold);
    forall i | 0 <= i < |r.tests|
      ensures SubjectsOf(r.tests[i], fold) == Some(b.subjects) <==> Tabulates(r.tests[i], b.subjects, fold)
    {
      SubjectsExactly(r.tests[i], b.subjects, fold);
    }
    FoundedExactly(r.dependencies, b, fold);
  }

  lemma OneBaseIs<D>(list: seq<Dependency<D>>, k: int)
    requires OnlyBase(list, k) && |Bases(list)| == 1
    ensures 0 <= k < |list| && list[k].Base? && Bases(list)[0] == list[k]
  {
    BasesExactly(list);
    var i :| 0 <= i < |list| && list[i] == Bases(list)[0];
  }

  lemma BaseExactly<D>(base: Dependency<D>, b: Bound<D>, images: map<string, Option<D>>, fold: Fold)
    requires base.Base?
    ensures Completes(base, b, images, fold) <==>
      && GoodBase(base) && b.commit == base.commit && Created(base.created, images, fold) == Some(b.before)
      && Removed(base.deleted, b.subjects, b.before, fold) == Some(b.deleted)
  {
    hide SafePath, Created, Removed, Deletes, Entered;
    CreatedExactly(base.created, images, fold);
    DeletesExactly(base.deleted, b.subjects, b.before, b.deleted, fold);
  }

  // ------------------------------------------------------------------ the writer

  /** `order` lists a set once, in some order: the writer sorts, and nothing depends on how. */
  ghost predicate Lists(order: seq<string>, s: set<string>) {
    (forall i, j :: 0 <= i < j < |order| ==> order[i] != order[j]) && (forall p :: p in order <==> p in s)
  }

  function SubjectList<D>(order: seq<string>, o: Outcome<D>, sha: Digest<D>): seq<Subject<D>> {
    if order == [] then []
    else
      var init, p := SubjectList(order[..|order| - 1], o, sha), order[|order| - 1];
      if p in o.delivered then init + [Subject(p, sha(o.delivered[p].raw))] else init
  }

  /** `created`: the paths with no before-image. */
  function CreatedList<D>(order: seq<string>, o: Outcome<D>): seq<string> {
    if order == [] then []
    else
      var init, p := CreatedList(order[..|order| - 1], o), order[|order| - 1];
      if p in o.before && o.before[p].None? then init + [p] else init
  }

  /** `deleted`: the paths no longer delivered, with the digest they had. */
  function DeletedList<D>(order: seq<string>, o: Outcome<D>): seq<Deletion<D>> {
    if order == [] then []
    else
      var init, p := DeletedList(order[..|order| - 1], o), order[|order| - 1];
      if p in o.before && p !in o.delivered && o.before[p].Some? then init + [Deletion(p, o.before[p])] else init
  }

  function ImageList<D>(order: seq<string>, o: Outcome<D>): seq<Dependency<D>> {
    if order == [] then []
    else
      var init, p := ImageList(order[..|order| - 1], o), order[|order| - 1];
      if p in o.before && o.before[p].Some? then init + [BeforeImage(p, o.before[p].value)] else init
  }

  /** The receipt `export_package` writes for a delivery: every statement names the same subjects. */
  function Export<D>(o: Outcome<D>, order: seq<string>, checks: nat, tree: Option<string>, commit: Option<string>,
                     others: nat, sha: Digest<D>): Receipt<D>
  {
    var subjects := SubjectList(order, o, sha);
    var base := Base(tree, commit, CreatedList(order, o), DeletedList(order, o));
    Receipt(subjects, seq(checks, _ => subjects), subjects, None,
            [base] + ImageList(order, o) + seq(others, _ => Other))
  }

  /** The before-image rows, as the writer's loop over the sorted paths adds them. */
  method WriteImages<D>(o: Outcome<D>, order: seq<string>) returns (rows: seq<Dependency<D>>)
    ensures rows == ImageList(order, o)
  {
    rows := [];
    for i := 0 to |order|
      invariant rows == ImageList(order[..i], o)
    {
      assert order[..i + 1][..i] == order[..i];
      if order[i] in o.before && o.before[order[i]].Some? {
        rows := rows + [BeforeImage(order[i], o.before[order[i]].value)];
      }
    }
    assert order[..|order|] == order;
  }

  // ------------------------------------------------------------------ they agree

  /** What `_delivery` guarantees of its result. */
  ghost predicate Sound<D>(o: Outcome<D>, fold: Fold) {
    && (forall p :: p in o.before ==> !Unsafe(p, fold))
    && o.delivered.Keys <= o.before.Keys
    && (forall p :: p in o.before ==> p in o.delivered || o.before[p].Some?)
  }

  function SubjectTable<D>(o: Outcome<D>, sha: Digest<D>): map<string, D> {
    map p | p in o.delivered :: sha(o.delivered[p].raw)
  }

  function DeletedTable<D>(o: Outcome<D>): map<string, D> {
    map p | p in o.before && p !in o.delivered && o.before[p].Some? :: o.before[p].value
  }

  // The parts of the tables that the paths of a list account for.

  function SubjectsIn<D>(order: seq<string>, o: Outcome<D>, sha: Digest<D>): map<string, D> {
    map p | p in order && p in o.delivered :: sha(o.delivered[p].raw)
  }

  function ImagesIn<D>(order: seq<string>, o: Outcome<D>): map<string, Option<D>> {
    map p | p in order && p in o.before && o.before[p].Some? :: o.before[p]
  }

  function CreatedIn<D>(order: seq<string>, o: Outcome<D>): map<string, Option<D>> {
    map p | p in order && p in o.before && o.before[p].None? :: None
  }

  function RemovedIn<D>(order: seq<string>, o: Outcome<D>): map<string, D> {
    map p | p in order && p in o.before && p !in o.delivered && o.before[p].Some? :: o.before[p].value
  }

  /** Every path of a list is fit to be recorded. */
  ghost predicate Recordable(order: seq<string>, fold: Fold) {
    && (forall i, j :: 0 <= i < j < |order| ==> order[i] != order[j])
    && (forall p :: p in order ==> SafePath(p, fold))
  }

  lemma RecordableInit(order: seq<string>, fold: Fold)
    requires Recordable(order, fold) && order != []
    ensures Recordable(order[..|order| - 1], fold) && order[|order| - 1] !in order[..|order| - 1]
    ensures SafePath(order[|order| - 1], fold)
    ensures forall p :: p in order <==> p in order[..|order| - 1] || p == order[|order| - 1]
  {
  }

  lemma {:induction false} SubjectsRebuilt<D>(order: seq<string>, o: Outcome<D>, fold: Fold, sha: Digest<D>)
    requires Recordable(order, fold)
    ensures Table(SubjectList(order, o, sha), fold) == Some(SubjectsIn(order, o, sha))
  {
    hide SafePath, Recordable;
    if order != [] {
      RecordableInit(order, fold);
      var init := order[..|order| - 1];
      SubjectsRebuilt(init, o, fold, sha);
      var list := SubjectList(order, o, sha);
      if order[|order| - 1] in o.delivered {
        assert list[..|list| - 1] == SubjectList(init, o, sha);
        assert SubjectsIn(order, o, sha) == SubjectsIn(init, o, sha)[order[|order| - 1] := list[|list| - 1].digest];
      } else {
        assert SubjectsIn(order, o, sha) == SubjectsIn(init, o, sha);
      }
    }
  }

  lemma {:induction false} ImagesRebuilt<D>(base: Dependency<D>, order: seq<string>, o: Outcome<D>, fold: Fold)
    requires base.Base? && Recordable(order, fold)
    ensures Images([base] + ImageList(order, o), fold) == Some(ImagesIn(order, o))
  {
    hide SafePath, Recordable;
    var list := [base] + ImageList(order, o);
    if order == [] {
      assert list[..0] == [];
      assert list == [base];
    } else {
      RecordableInit(order, fold);
      var init := order[..|order| - 1];
      ImagesRebuilt(base, init, o, fold);
      if order[|order| - 1] in o.before && o.before[order[|order| - 1]].Some? {
        assert list[..|list| - 1] == [base] + ImageList(init, o);
        assert ImagesIn(order, o) == ImagesIn(init, o)[order[|order| - 1] := o.before[order[|order| - 1]]];
      } else {
        assert ImagesIn(order, o) == ImagesIn(init, o);
      }
    }
  }

  lemma {:induction false} OthersKept<D>(dependencies: seq<Dependency<D>>, n: nat, fold: Fold)
    ensures Images(dependencies + seq(n, _ => Other), fold) == Images(dependencies, fold)
    ensures Bases(dependencies + seq(n, _ => Other)) == Bases(dependencies)
  {
    hide SafePath;
    var list := dependencies + seq(n, _ => Other);
    if n == 0 {
      assert list == dependencies;
    } else {
      assert list[..|list| - 1] == dependencies + seq(n - 1, _ => Other);
      OthersKept(dependencies, n - 1, fold);
    }
  }

  lemma {:induction false} OneBase<D>(base: Dependency<D>, order: seq<string>, o: Outcome<D>)
    requires base.Base?
    ensures Bases([base] + ImageList(order, o)) == [base]
  {
    var list := [base] + ImageList(order, o);
    if order == [] {
      assert list[..0] == [];
      assert list == [base];
    } else {
      var init := order[..|order| - 1];
      OneBase(base, init, o);
      if order[|order| - 1] in o.before && o.before[order[|order| - 1]].Some? {
        assert list[..|list| - 1] == [base] + ImageList(init, o);
      } else {
        assert list == [base] + ImageList(init, o);
      }
    }
  }

  lemma CreatedInNext<D>(order: seq<string>, o: Outcome<D>)
    requires order != []
    ensures var init, p := order[..|order| - 1], order[|order| - 1];
            CreatedIn(order, o) ==
            if p in o.before && o.before[p].None? then CreatedIn(init, o)[p := None] else CreatedIn(init, o)
  {
  }

  lemma CreatedAmong<D>(order: seq<string>, o: Outcome<D>)
    ensures forall p :: p in CreatedIn(order, o) <==> p in order && p in o.before && o.before[p].None?
    ensures order == [] ==> CreatedIn(order, o) == map[]
  {
  }

  lemma CreatedListNext<D>(order: seq<string>, o: Outcome<D>)
    ensures order == [] ==> CreatedList(order, o) == []
    ensures order != [] ==>
              var init, p := CreatedList(order[..|order| - 1], o), order[|order| - 1];
              CreatedList(order, o) == if p in o.before && o.before[p].None? then init + [p] else init
  {
  }

  lemma CreatedNone<D>(images: map<string, Option<D>>, fold: Fold)
    ensures Created([], images, fold) == Some(images)
  {
  }

  lemma CreatedMore<D>(list: seq<string>, p: string, images: map<string, Option<D>>, m: map<string, Option<D>>,
                       fold: Fold)
    requires Created(list, images, fold) == Some(m) && SafePath(p, fold) && p !in m
    ensures Created(list + [p], images, fold) == Some(m[p := None])
  {
    hide SafePath;
    assert (list + [p])[..|list|] == list;
  }

  lemma {:induction false} CreatedRebuilt<D>(order: seq<string>, o: Outcome<D>, images: map<string, Option<D>>,
                                             fold: Fold)
    requires Recordable(order, fold) && forall p :: p in images ==> p in o.before && o.before[p].Some?
    ensures Created(CreatedList(order, o), images, fold) ==
            Some(images + CreatedIn(order, o))
  {
    hide SafePath, Recordable, CreatedIn, Created, CreatedList;
    CreatedAmong(order, o);
    CreatedListNext(order, o);
    if order == [] {
      CreatedNone(images, fold);
      assert images + map[] == images;
    } else {
      RecordableInit(order, fold);
      var init, p := order[..|order| - 1], order[|order| - 1];
      CreatedRebuilt(init, o, images, fold);
      CreatedAmong(init, o);
      CreatedInNext(order, o);
      if p in o.before && o.before[p].None? {
        CreatedMore(CreatedList(init, o), p, images, images + CreatedIn(init, o), fold);
        assert images + CreatedIn(init, o)[p := None] == (images + CreatedIn(init, o))[p := None];
      }
    }
  }

  predicate Gone<D>(p: string, o: Outcome<D>) { p in o.before && p !in o.delivered && o.before[p].Some? }

  lemma RemovedInNext<D>(order: seq<string>, o: Outcome<D>, fold: Fold)
    requires Recordable(order, fold) && order != []
    ensures var init, p := order[..|order| - 1], order[|order| - 1];
            && p !in RemovedIn(init, o)
            && RemovedIn(order, o) ==
               if Gone(p, o) then RemovedIn(init, o)[p := o.before[p].value] else RemovedIn(init, o)
  {
  }

  lemma {:induction false} RemovedRebuilt<D>(order: seq<string>, o: Outcome<D>, subjects: map<string, D>, fold: Fold)
    requires Recordable(order, fold) && subjects.Keys == o.delivered.Keys
    ensures Removed(DeletedList(order, o), subjects, o.before, fold) == Some(RemovedIn(order, o))
  {
    hide SafePath, Recordable, RemovedIn;
    if order == [] {
      assert RemovedIn(order, o) == map[] by { RemovedInNothing(o); }
    } else {
      RecordableInit(order, fold);
      RemovedInNext(order, o, fold);
      var init := order[..|order| - 1];
      RemovedRebuilt(init, o, subjects, fold);
      if Gone(order[|order| - 1], o) {
        var list := DeletedList(order, o);
        assert list[..|list| - 1] == DeletedList(init, o);
      }
    }
  }

  lemma RemovedInNothing<D>(o: Outcome<D>)
    ensures RemovedIn([], o) == map[]
  {
  }

  /**
   * Writer and verifier agree: the receipt of every nonempty delivery whose paths keep the length
   * limit is accepted, and the verifier rebuilds exactly its subjects, before-images and deletions.
   */
  lemma ExportIsConsistent<D>(o: Outcome<D>, order: seq<string>, checks: nat, tree: Option<string>,
                              commit: Option<string>, others: nat, fold: Fold, sha: Digest<D>)
    requires Sound(o, fold) && o.delivered != map[] && Lists(order, o.before.Keys)
    requires forall p :: p in o.before ==> |p| <= MAX_PATH
    requires tree.Some? ==> Patches.IsId(tree.value)
    requires commit.Some? ==> Patches.IsId(commit.value)
    ensures var r := Export(o, order, checks, tree, commit, others, sha);
            var b := Bound(SubjectTable(o, sha), o.before, DeletedTable(o), commit, "");
            Consistent(r, b, fold) && Summarised(r, b, fold)
  {
    hide SafePath, Unsafe, SubjectList, CreatedList, DeletedList, ImageList, Table, Created, Removed, Images, Bases,
      Patches.IsId, SubjectsIn, ImagesIn, CreatedIn, RemovedIn;
    forall p | p in order ensures SafePath(p, fold) { SafeIsNotUnsafe(p, fold); }
    var base := Base(tree, commit, CreatedList(order, o), DeletedList(order, o));
    var images := ImagesIn(order, o);
    TablesCover(order, o, sha);
    SubjectsRebuilt(order, o, fold, sha);
    ImagesRebuilt(base, order, o, fold);
    OthersKept([base] + ImageList(order, o), others, fold);
    OneBase(base, order, o);
    CreatedRebuilt(order, o, images, fold);
    RemovedRebuilt(order, o, SubjectTable(o, sha), fold);
    SubjectsNonempty(order, o, sha);
  }

  lemma TablesCover<D>(order: seq<string>, o: Outcome<D>, sha: Digest<D>)
    requires Lists(order, o.before.Keys) && o.delivered.Keys <= o.before.Keys
    ensures SubjectsIn(order, o, sha) == SubjectTable(o, sha) && RemovedIn(order, o) == DeletedTable(o)
    ensures ImagesIn(order, o) + CreatedIn(order, o) == o.before
    ensures forall p :: p in ImagesIn(order, o) ==> p in o.before && o.before[p].Some?
    ensures SubjectTable(o, sha).Keys == o.delivered.Keys
  {
  }

  lemma SubjectsNonempty<D>(order: seq<string>, o: Outcome<D>, sha: Digest<D>)
    requires o.delivered != map[] && Lists(order, o.before.Keys) && o.delivered.Keys <= o.before.Keys
    ensures SubjectList(order, o, sha) != []
  {
    var p :| p in o.delivered;
    var i :| 0 <= i < |order| && order[i] == p;
    Counts(order, o, sha, i);
  }

  lemma {:induction false} Counts<D>(order: seq<string>, o: Outcome<D>, sha: Digest<D>, i: nat)
    requires i < |order| && order[i] in o.delivered
    ensures SubjectList(order, o, sha) != []
  {
    if i < |order| - 1 {
      Counts(order[..|order| - 1], o, sha, i);
    }
  }
}
