/** From delivery to pull request: the writer, the verifier and the gate fit together. */
module BindingProofs {
  import opened Prelude
  import opened Paths
  import opened VsaPrefix
  import opened Delivery
  import opened Receipts
  import opened Binding
  import Patches

  // ------------------------------------------------------------------ deliveries are sound

  /** Whatever `git apply` did, a combined delivery has safe paths and covers what it touched. */
  lemma {:induction false} CombinedIsSound<D>(replays: seq<Replay>, blob: BlobId, fold: Fold, sha: Digest<D>)
    requires Combine(replays, blob, fold, sha).Some?
    ensures var d := Combine(replays, blob, fold, sha).value;
            d.state.Keys == d.before.Keys && forall p :: p in d.state ==> !Unsafe(p, fold)
  {
    hide Unsafe, Fits, Gives, Results;
    if replays != [] {
      var init, r := replays[..|replays| - 1], replays[|replays| - 1];
      CombinedIsSound(init, blob, fold, sha);
      ResultPaths(r.patch.files, r.outcome.value);
      forall p | p in PathsOf(r.patch) ensures !Unsafe(p, fold) {
        var f :| f in r.patch.files && f.path == p;
      }
    }
  }

  lemma FinishedIsSound<D>(replays: seq<Replay>, blob: BlobId, fold: Fold, sha: Digest<D>)
    requires Combine(replays, blob, fold, sha).Some?
    ensures Sound(Finish(Combine(replays, blob, fold, sha).value), fold)
  {
    CombinedIsSound(replays, blob, fold, sha);
  }

  /** A delivery of whole files is as sound as one of patches: each name is a path the verifier takes. */
  lemma WholeFilesAreSound<D>(outputs: seq<(string, Bytes)>, o: Outcome<D>, fold: Fold)
    requires Deliverable(outputs, fold)
    requires o.delivered.Keys == o.before.Keys == set i | 0 <= i < |outputs| :: outputs[i].0
    ensures Sound(o, fold)
  {
  }

  // ------------------------------------------------------------------ what a verified receipt guarantees

  lemma {:induction false} RemovedMeans<D>(deleted: seq<Deletion<D>>, subjects: map<string, D>,
                                           before: map<string, Option<D>>, fold: Fold)
    requires Removed(deleted, subjects, before, fold).Some?
    ensures var m := Removed(deleted, subjects, before, fold).value;
            forall p :: p in m ==> p !in subjects && p in before && before[p] == Some(m[p])
  {
    hide SafePath;
    if deleted != [] {
      RemovedMeans(deleted[..|deleted| - 1], subjects, before, fold);
    }
  }

  /** Every touched path has a before-image record, and a deletion's is the digest it had. */
  lemma VerifiedTables<D>(r: Receipt<D>, b: Bound<D>, fold: Fold)
    requires Consistent(r, b, fold)
    ensures b.subjects.Keys !! b.deleted.Keys && b.subjects.Keys + b.deleted.Keys == b.before.Keys
    ensures forall p :: p in b.deleted ==> b.before[p] == Some(b.deleted[p])
  {
    RemovedMeans(Bases(r.dependencies)[0].deleted, b.subjects, b.before, fold);
  }

  /** The tables, and the prefix, are all decided by the receipt. */
  lemma BoundIsUnique<D>(r: Receipt<D>, b: Bound<D>, c: Bound<D>, fold: Fold)
    requires Consistent(r, b, fold) && Summarised(r, b, fold)
    requires Consistent(r, c, fold) && Summarised(r, c, fold)
    ensures b == c
  {
    hide Table, Images, Created, Removed, Bases, Placed, Unambiguous;
    if r.vsa.Some? {
      PrefixIsUnique(b.prefix, c.prefix, r.provenance, SubjectsOf(r.vsa.value, fold).value);
    }
  }

  // ------------------------------------------------------------------ the gate is exact

  /** The change at `path` is the delivery's: its result at head, and what it was built on at base. */
  ghost predicate IsDelivered<D>(c: Change<D>, prefix: string, b: Bound<D>, path: string)
    requires path in c.changed
  {
    prefix <= path &&
    var name := path[|prefix|..];
    if c.changed[path] == "D" then
      name in b.deleted && path in c.base && c.base[path] == Some(b.deleted[name])
    else
      && name in b.subjects && path in c.head && c.head[path] == Some(b.subjects[name])
      && name in b.before
      && (if b.before[name].None? then path !in c.base else path in c.base && c.base[path] == b.before[name])
  }

  /**
   * For a verified receipt, the gate's checks at a path hold exactly when the change there is the
   * delivery's own: no branch of the freshness check can refuse a delivered path for want of a record.
   */
  lemma GateIsExact<D>(c: Change<D>, prefix: string, r: Receipt<D>, b: Bound<D>, path: string, fold: Fold)
    requires Consistent(r, b, fold) && path in c.changed
    ensures HeadFault(c, path, Moved(b.subjects, prefix), Moved(b.deleted, prefix)).None?
              && BaseFault(c, path, Moved(b.before, prefix)).None?
            <==> IsDelivered(c, prefix, b, path)
  {
    hide Consistent, Moved;
    VerifiedTables(r, b, fold);
    MovedAt(b.subjects, prefix, path);
    MovedAt(b.deleted, prefix, path);
    MovedAt(b.before, prefix, path);
  }

  // ------------------------------------------------------------------ end to end

  /** No two of these contents collide. */
  ghost predicate Injective<D>(sha: Digest<D>, contents: set<Bytes>) {
    forall x, y :: x in contents && y in contents && sha(x) == sha(y) ==> x == y
  }

  /**
   * A pull request accepted against the receipt of a delivery changes nothing but what was
   * delivered: each file it leaves has the delivered bytes' digest, and, where those two contents do
   * not collide, the delivered bytes; each file it removes was deleted by the delivery; and at the
   * base stood what was replaced.
   */
  lemma AcceptedIsDelivered<D>(o: Outcome<D>, order: seq<string>, checks: nat, tree: Option<string>,
                               commit: Option<string>, others: nat, b: Bound<D>, c: Change<D>, prefix: string,
                               files: map<string, Bytes>, path: string, fold: Fold, sha: Digest<D>)
    requires Sound(o, fold) && o.delivered != map[] && Lists(order, o.before.Keys)
    requires forall p :: p in o.before ==> |p| <= MAX_PATH
    requires tree.Some? ==> Patches.IsId(tree.value)
    requires commit.Some? ==> Patches.IsId(commit.value)
    requires var r := Export(o, order, checks, tree, commit, others, sha);
             Consistent(r, b, fold) && Summarised(r, b, fold)
    requires path in c.changed
    requires HeadFault(c, path, Moved(b.subjects, prefix), Moved(b.deleted, prefix)).None?
    requires BaseFault(c, path, Moved(b.before, prefix)).None?
    requires path in c.head && c.head[path].Some? ==> path in files && c.head[path] == Some(sha(files[path]))
    ensures prefix <= path
    ensures var name := path[|prefix|..];
            if c.changed[path] == "D" then name !in o.delivered && name in o.before && o.before[name].Some?
            else name in o.delivered && path in files && sha(files[path]) == sha(o.delivered[name].raw)
                 && (Injective(sha, {files[path], o.delivered[name].raw}) ==> files[path] == o.delivered[name].raw)
    ensures var name := path[|prefix|..];
            && name in o.before
            && if o.before[name].None? then path !in c.base else path in c.base && c.base[path] == o.before[name]
  {
    hide Consistent, Summarised, Export, Unsafe, HeadFault, BaseFault, Moved, Lists;
    var r := Export(o, order, checks, tree, commit, others, sha);
    ExportIsConsistent(o, order, checks, tree, commit, others, fold, sha);
    BoundIsUnique(r, b, Bound(SubjectTable(o, sha), o.before, DeletedTable(o), commit, ""), fold);
    GateIsExact(c, prefix, r, b, path, fold);
  }
}
