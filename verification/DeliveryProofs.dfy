/** When patch outputs combine, and why the order they are combined in does not matter. */
module DeliveryProofs {
  import opened Prelude
  import opened Paths
  import opened Delivery
  import P = Patches

  /** Every replay is of an admitted patch output. */
  ghost predicate Admitted(replays: seq<Replay>, blob: BlobId, fold: Fold) {
    forall i :: 0 <= i < |replays| ==> IsPatchOutput(replays[i].patch, replays[i].baseline, blob, fold)
  }

  /** The attempts captured the same file wherever their patches touch the same path. */
  ghost predicate Agree(replays: seq<Replay>) {
    forall i, j :: 0 <= i < |replays| && 0 <= j < |replays| ==> SameFiles(replays[i], replays[j])
  }

  ghost predicate SameFiles(r: Replay, s: Replay) {
    forall path :: path in PathsOf(r.patch) * PathsOf(s.patch) ==> Get(r.baseline, path) == Get(s.baseline, path)
  }

  ghost predicate Disjoint(replays: seq<Replay>) {
    forall i, j :: 0 <= i < j < |replays| ==> PathsOf(replays[i].patch) !! PathsOf(replays[j].patch)
  }

  /** The patch applies, by itself, to the files its attempt captured. */
  ghost predicate Alone(r: Replay, blob: BlobId, fold: Fold) {
    Applies(Enter(map[], r), r.patch, r.outcome, blob, fold)
  }

  ghost predicate AllAlone(replays: seq<Replay>, blob: BlobId, fold: Fold) {
    forall i :: 0 <= i < |replays| ==> Alone(replays[i], blob, fold)
  }

  /** `path` stands as replay `r` alone leaves it. */
  ghost predicate LeftBy<D>(d: Delivered<D>, r: Replay, path: string, sha: Digest<D>) {
    && r.outcome.Some? && path in d.state && path in d.before
    && path in Results(r.patch.files, r.outcome.value)
    && d.state[path] == Results(r.patch.files, r.outcome.value)[path]
    && d.before[path] == if path in r.baseline then Some(sha(r.baseline[path].raw)) else None
  }

  /** What a successful combination holds: the union of what each patch does alone. */
  ghost predicate IsUnion<D>(d: Delivered<D>, replays: seq<Replay>, sha: Digest<D>) {
    && d.state.Keys == d.before.Keys
    && (forall path :: path in d.state ==> exists i :: 0 <= i < |replays| && path in PathsOf(replays[i].patch))
    && (forall i, path :: 0 <= i < |replays| && path in PathsOf(replays[i].patch) ==> LeftBy(d, replays[i], path, sha))
  }

  lemma SectionAt(patch: Patch, path: string) returns (f: P.FilePatch)
    requires path in PathsOf(patch)
    ensures f in patch.files && f.path == path
  {
    f :| f in patch.files && f.path == path;
  }

  /** A path one patch has changed no longer fits another patch taken from the same file. */
  lemma ChangedNoLongerFits(f: P.FilePatch, g: P.FilePatch, file: Option<File>, now: Option<File>, blob: BlobId)
    requires f.pre != f.post && Fits(f, file, blob) && Fits(g, file, blob)
    requires if f.post.None? then now.None? else now.Some? && blob(now.value.raw) == f.post.value
    ensures !Fits(g, now, blob)
  {
  }

  lemma ResultFits(r: Replay, f: P.FilePatch, blob: BlobId, fold: Fold)
    requires Proper(r.patch.files) && f in r.patch.files && r.outcome.Some? && Gives(f, r.outcome.value, blob)
    ensures f.path in Results(r.patch.files, r.outcome.value)
    ensures var now := Results(r.patch.files, r.outcome.value)[f.path];
            if f.post.None? then now.None? else now.Some? && blob(now.value.raw) == f.post.value
  {
    ResultOf(r.patch.files, r.outcome.value, f);
  }

  /** Two admitted patches that touch one path cannot both be replayed. */
  lemma SharedPathRefused<D>(d: Delivered<D>, first: Replay, second: Replay, path: string, blob: BlobId, fold: Fold,
                             sha: Digest<D>)
    requires IsPatchOutput(first.patch, first.baseline, blob, fold)
        && IsPatchOutput(second.patch, second.baseline, blob, fold)
    requires path in PathsOf(first.patch) && path in PathsOf(second.patch)
    requires Get(first.baseline, path) == Get(second.baseline, path)
    requires Alone(first, blob, fold) && LeftBy(d, first, path, sha)
    ensures !Applies(Enter(d.state, second), second.patch, second.outcome, blob, fold)
  {
    hide Fits, Unsafe, Gives, Results;
    var f := SectionAt(first.patch, path);
    var g := SectionAt(second.patch, path);
    ResultFits(first, f, blob, fold);
    assert f.pre != f.post by {
      var i :| 0 <= i < |first.patch.files| && first.patch.files[i] == f;
    }
    ChangedNoLongerFits(f, g, Get(first.baseline, path), d.state[path], blob);
    assert Enter(d.state, second)[path] == d.state[path];
  }

  lemma EntersAlike(state: State, r: Replay)
    requires PathsOf(r.patch) !! state.Keys
    ensures PathsOf(r.patch) <= Enter(state, r).Keys && PathsOf(r.patch) <= Enter(map[], r).Keys
    ensures forall p :: p in PathsOf(r.patch) ==>
              p in Enter(state, r) && p in Enter(map[], r) && Enter(state, r)[p] == Enter(map[], r)[p]
  {
    hide PathsOf, Get;
  }

  /** A patch whose paths are all new meets exactly the files it meets alone. */
  lemma FreshIsAlone(state: State, r: Replay, blob: BlobId, fold: Fold)
    requires PathsOf(r.patch) !! state.Keys
    ensures Applies(Enter(state, r), r.patch, r.outcome, blob, fold) <==> Alone(r, blob, fold)
  {
    hide Unsafe, Replays, Applies, Get, Enter;
    EntersAlike(state, r);
    assert forall f :: f in r.patch.files ==> f.path in PathsOf(r.patch);
    hide PathsOf;
    AppliesExactly(Enter(state, r), r.patch, r.outcome, blob, fold);
    AppliesExactly(Enter(map[], r), r.patch, r.outcome, blob, fold);
  }

  function Next<D>(d: Delivered<D>, r: Replay, sha: Digest<D>): Delivered<D>
    requires r.outcome.Some?
  {
    Delivered(Enter(d.state, r) + Results(r.patch.files, r.outcome.value), Recorded(d, r, sha))
  }

  lemma LeftByNext<D>(d: Delivered<D>, r: Replay, sha: Digest<D>)
    requires d.state.Keys == d.before.Keys && PathsOf(r.patch) !! d.state.Keys && r.outcome.Some?
    ensures Next(d, r, sha).state.Keys == Next(d, r, sha).before.Keys == d.state.Keys + PathsOf(r.patch)
    ensures forall path :: path in PathsOf(r.patch) ==> LeftBy(Next(d, r, sha), r, path, sha)
    ensures forall path :: path in d.state ==>
              Next(d, r, sha).state[path] == d.state[path] && Next(d, r, sha).before[path] == d.before[path]
  {
    ResultPaths(r.patch.files, r.outcome.value);
  }

  lemma UnionNext<D>(d: Delivered<D>, replays: seq<Replay>, r: Replay, sha: Digest<D>)
    requires IsUnion(d, replays, sha) && PathsOf(r.patch) !! d.state.Keys && r.outcome.Some?
    ensures IsUnion(Next(d, r, sha), replays + [r], sha)
  {
    LeftByNext(d, r, sha);
    hide Results, Next, PathsOf;
    var more, after := replays + [r], Next(d, r, sha);
    forall path | path in after.state ensures exists i :: 0 <= i < |more| && path in PathsOf(more[i].patch) {
      if path in d.state {
        var i :| 0 <= i < |replays| && path in PathsOf(replays[i].patch);
        assert more[i] == replays[i];
      } else {
        assert more[|replays|] == r;
      }
    }
    forall i, path | 0 <= i < |more| && path in PathsOf(more[i].patch) ensures LeftBy(after, more[i], path, sha) {
      if i < |replays| {
        assert more[i] == replays[i] && LeftBy(d, replays[i], path, sha);
      }
    }
  }

  /** The next patch applies exactly when it shares no path with an earlier one and applies alone. */
  lemma AppliesNext<D>(d: Delivered<D>, replays: seq<Replay>, r: Replay, blob: BlobId, fold: Fold, sha: Digest<D>)
    requires IsUnion(d, replays, sha) && AllAlone(replays, blob, fold)
    requires Admitted(replays + [r], blob, fold) && Agree(replays + [r])
    ensures Applies(Enter(d.state, r), r.patch, r.outcome, blob, fold) <==>
      Alone(r, blob, fold) && forall i :: 0 <= i < |replays| ==> PathsOf(replays[i].patch) !! PathsOf(r.patch)
    ensures Applies(Enter(d.state, r), r.patch, r.outcome, blob, fold) ==> PathsOf(r.patch) !! d.state.Keys
  {
    hide Applies, Results, IsPatchOutput, LeftBy, PathsOf, Enter, Alone;
    var more := replays + [r];
    assert more[|replays|] == r;
    if path :| path in PathsOf(r.patch) && path in d.state {
      var i :| 0 <= i < |replays| && path in PathsOf(replays[i].patch);
      assert more[i] == replays[i];
      assert SameFiles(more[i], more[|replays|]);
      assert path in PathsOf(replays[i].patch) * PathsOf(r.patch);
      assert Alone(replays[i], blob, fold);
      SharedPathRefused(d, replays[i], r, path, blob, fold, sha);
    } else {
      FreshIsAlone(d.state, r, blob, fold);
      forall i | 0 <= i < |replays| ensures PathsOf(replays[i].patch) !! PathsOf(r.patch) {
        forall p | p in PathsOf(replays[i].patch) ensures p in d.state {
          InUnion(d, replays, i, p, sha);
        }
      }
    }
  }

  lemma InUnion<D>(d: Delivered<D>, replays: seq<Replay>, i: nat, path: string, sha: Digest<D>)
    requires IsUnion(d, replays, sha) && i < |replays| && path in PathsOf(replays[i].patch)
    ensures path in d.state
  {
  }

  lemma DisjointNext(replays: seq<Replay>, r: Replay, blob: BlobId, fold: Fold)
    ensures Disjoint(replays + [r]) <==>
            Disjoint(replays) && forall i :: 0 <= i < |replays| ==> PathsOf(replays[i].patch) !! PathsOf(r.patch)
    ensures AllAlone(replays + [r], blob, fold) <==> AllAlone(replays, blob, fold) && Alone(r, blob, fold)
    ensures Admitted(replays + [r], blob, fold) ==> Admitted(replays, blob, fold)
    ensures Agree(replays + [r]) ==> Agree(replays)
  {
    hide Alone, IsPatchOutput, PathsOf, SameFiles;
    var more := replays + [r];
    assert more[|replays|] == r;
    assert forall i :: 0 <= i < |replays| ==> more[i] == replays[i];
    if Disjoint(more) {
      forall i | 0 <= i < |replays| ensures PathsOf(replays[i].patch) !! PathsOf(r.patch) {
        assert PathsOf(more[i].patch) !! PathsOf(more[|replays|].patch);
      }
      forall i, j | 0 <= i < j < |replays| ensures PathsOf(replays[i].patch) !! PathsOf(replays[j].patch) {
        assert PathsOf(more[i].patch) !! PathsOf(more[j].patch);
      }
    }
  }

  /**
   * Patch outputs combine exactly when they touch pairwise disjoint paths and each applies alone to
   * its own baseline; the delivery is then the union of what each does alone.
   */
  lemma {:induction false} CombinesExactly<D>(replays: seq<Replay>, blob: BlobId, fold: Fold, sha: Digest<D>)
    requires Admitted(replays, blob, fold) && Agree(replays)
    ensures Combine(replays, blob, fold, sha).Some? <==> Disjoint(replays) && AllAlone(replays, blob, fold)
    ensures Combine(replays, blob, fold, sha).Some? ==> IsUnion(Combine(replays, blob, fold, sha).value, replays, sha)
  {
    hide Applies, Results, Admitted, Agree, Disjoint, AllAlone, Alone, Enter, PathsOf, Recorded;
    if replays == [] {
      EmptyUnion(sha, blob, fold);
    } else {
      var init, r := replays[..|replays| - 1], replays[|replays| - 1];
      assert replays == init + [r];
      DisjointNext(init, r, blob, fold);
      CombinesExactly(init, blob, fold, sha);
      var before := Combine(init, blob, fold, sha);
      if before.Some? {
        AppliesNext(before.value, init, r, blob, fold, sha);
        if Alone(r, blob, fold) && Combine(replays, blob, fold, sha).Some? {
          AloneReplays(r, blob, fold);
          UnionNext(before.value, init, r, sha);
        }
      }
    }
  }

  lemma EmptyUnion<D>(sha: Digest<D>, blob: BlobId, fold: Fold)
    ensures IsUnion(Delivered(map[], map[]), [], sha) && Disjoint([]) && AllAlone([], blob, fold)
  {
  }

  lemma AloneReplays(r: Replay, blob: BlobId, fold: Fold)
    requires Alone(r, blob, fold)
    ensures r.outcome.Some?
  {
  }

  // ------------------------------------------------------------------ the order does not matter

  /** Every patch of one list, with its baseline, is in the other. */
  ghost predicate SamePatches(some: seq<Replay>, other: seq<Replay>) {
    forall i :: 0 <= i < |some| ==>
      exists j :: 0 <= j < |other| && other[j].patch == some[i].patch && other[j].baseline == some[i].baseline
  }

  /** A section's file as its delivery holds it: over its before-image, under its mode, or gone. */
  ghost predicate Told<D>(o: Outcome<D>, r: Replay, f: P.FilePatch, sha: Digest<D>) {
    && (f.pre.Some? <==> f.path in r.baseline)
    && f.path in o.before
    && o.before[f.path] == (if f.path in r.baseline then Some(sha(r.baseline[f.path].raw)) else None)
    && (f.post.Some? <==> f.path in o.delivered)
    && (f.post.Some? ==>
          && r.outcome.Some? && f.path in r.outcome.value.files && r.outcome.value.files[f.path].Regular?
          && o.delivered[f.path] == File(f.mode, r.outcome.value.files[f.path].raw))
  }

  /** What a combined delivery says of every section of every patch; and it says nothing else. */
  lemma DeliversExactly<D>(replays: seq<Replay>, blob: BlobId, fold: Fold, sha: Digest<D>)
    requires Admitted(replays, blob, fold) && Agree(replays) && Combine(replays, blob, fold, sha).Some?
    ensures var o := Finish(Combine(replays, blob, fold, sha).value);
      && (forall i, f :: 0 <= i < |replays| && f in replays[i].patch.files ==> Told(o, replays[i], f, sha))
      && (forall p :: p in o.before || p in o.delivered ==>
            exists i :: 0 <= i < |replays| && p in PathsOf(replays[i].patch))
  {
    hide Combine, Disjoint, Told;
    CombinesExactly(replays, blob, fold, sha);
    var d := Combine(replays, blob, fold, sha).value;
    forall i, f | 0 <= i < |replays| && f in replays[i].patch.files ensures Told(Finish(d), replays[i], f, sha) {
      var r := replays[i];
      assert f.path in PathsOf(r.patch) && LeftBy(d, r, f.path, sha) && Alone(r, blob, fold);
      assert IsPatchOutput(r.patch, r.baseline, blob, fold);
      SectionTold(d, r, f, blob, fold, sha);
    }
  }

  lemma SectionTold<D>(d: Delivered<D>, r: Replay, f: P.FilePatch, blob: BlobId, fold: Fold, sha: Digest<D>)
    requires f in r.patch.files && LeftBy(d, r, f.path, sha) && Alone(r, blob, fold) && Proper(r.patch.files)
    ensures Told(Finish(d), r, f, sha)
  {
    hide Unsafe, Proper, Results;
    ResultOf(r.patch.files, r.outcome.value, f);
    assert f.path in PathsOf(r.patch);
    assert Fits(f, Get(r.baseline, f.path), blob) && Gives(f, r.outcome.value, blob);
    assert f.pre != f.post by { ProperChanges(r.patch.files, f); }
  }

  lemma ProperChanges(files: seq<P.FilePatch>, f: P.FilePatch)
    requires Proper(files) && f in files
    ensures f.pre != f.post
  {
  }

  /** The bytes that `git apply` left where a patch keeps a file. */
  ghost function Replayed(replays: seq<Replay>): set<Bytes> {
    set i, f | 0 <= i < |replays| && replays[i].outcome.Some? && f in replays[i].patch.files &&
      f.path in replays[i].outcome.value.files && replays[i].outcome.value.files[f.path].Regular? ::
      replays[i].outcome.value.files[f.path].raw
  }

  ghost predicate NoCollision(blob: BlobId, blobs: set<Bytes>) {
    forall x, y :: x in blobs && y in blobs && blob(x) == blob(y) ==> x == y
  }

  /**
   * Two runs over the same patches in any orders, with whatever `git apply` did in each, deliver the
   * same files and before-images if both succeed and the replayed bytes hold no blob-id collision.
   */
  lemma OrderDoesNotMatter<D>(a: seq<Replay>, b: seq<Replay>, blob: BlobId, fold: Fold, sha: Digest<D>)
    requires Admitted(a, blob, fold) && Agree(a) && Admitted(b, blob, fold) && Agree(b)
    requires SamePatches(a, b) && SamePatches(b, a)
    requires NoCollision(blob, Replayed(a) + Replayed(b))
    requires Combine(a, blob, fold, sha).Some? && Combine(b, blob, fold, sha).Some?
    ensures Combine(a, blob, fold, sha) == Combine(b, blob, fold, sha)
  {
    hide Combine, Admitted, Agree, Disjoint, AllAlone, Replayed, NoCollision, IsUnion, SamePatches;
    CombinesExactly(a, blob, fold, sha);
    CombinesExactly(b, blob, fold, sha);
    var d, e := Combine(a, blob, fold, sha).value, Combine(b, blob, fold, sha).value;
    UnionsAgree(d, e, a, b, Replayed(a) + Replayed(b), blob, fold, sha);
  }

  lemma UnionsAgree<D>(d: Delivered<D>, e: Delivered<D>, a: seq<Replay>, b: seq<Replay>, blobs: set<Bytes>,
                       blob: BlobId, fold: Fold, sha: Digest<D>)
    requires Admitted(a, blob, fold) && Admitted(b, blob, fold) && SamePatches(a, b) && SamePatches(b, a)
    requires NoCollision(blob, blobs) && Replayed(a) <= blobs && Replayed(b) <= blobs
    requires IsUnion(d, a, sha) && IsUnion(e, b, sha) && AllAlone(a, blob, fold) && AllAlone(b, blob, fold)
    ensures d == e
  {
    hide Admitted, AllAlone, Replayed, NoCollision, IsUnion, SamePatches;
    Within(d, e, a, b, blobs, blob, fold, sha);
    Within(e, d, b, a, blobs, blob, fold, sha);
    assert d.state == e.state;
    assert d.before == e.before;
  }

  lemma Within<D>(d: Delivered<D>, e: Delivered<D>, a: seq<Replay>, b: seq<Replay>, blobs: set<Bytes>, blob: BlobId,
                  fold: Fold, sha: Digest<D>)
    requires Admitted(a, blob, fold) && SamePatches(a, b)
    requires NoCollision(blob, blobs) && Replayed(a) <= blobs && Replayed(b) <= blobs
    requires IsUnion(d, a, sha) && IsUnion(e, b, sha) && AllAlone(a, blob, fold) && AllAlone(b, blob, fold)
    ensures d.state.Keys == d.before.Keys && e.state.Keys == e.before.Keys
    ensures forall path :: path in d.state ==>
              path in e.state && d.state[path] == e.state[path] && d.before[path] == e.before[path]
  {
    UnionKeys(d, a, sha);
    UnionKeys(e, b, sha);
    hide Admitted, AllAlone, Replayed, NoCollision, IsUnion, SamePatches;
    forall path | path in d.state
      ensures path in e.state && d.state[path] == e.state[path] && d.before[path] == e.before[path]
    {
      SamePath(d, e, a, b, path, blobs, blob, fold, sha);
    }
  }

  lemma UnionKeys<D>(d: Delivered<D>, replays: seq<Replay>, sha: Digest<D>)
    requires IsUnion(d, replays, sha)
    ensures d.state.Keys == d.before.Keys
  {
  }

  lemma SamePath<D>(d: Delivered<D>, e: Delivered<D>, a: seq<Replay>, b: seq<Replay>, path: string, blobs: set<Bytes>,
                    blob: BlobId, fold: Fold, sha: Digest<D>)
    requires Admitted(a, blob, fold) && SamePatches(a, b)
    requires NoCollision(blob, blobs) && Replayed(a) <= blobs && Replayed(b) <= blobs
    requires IsUnion(d, a, sha) && IsUnion(e, b, sha) && AllAlone(a, blob, fold) && AllAlone(b, blob, fold)
    requires path in d.state
    ensures path in e.state && d.state[path] == e.state[path] && d.before[path] == e.before[path]
  {
    hide Applies, Results, PathsOf, Unsafe, Fits, Alone, Gives, Taken, NoCollision, Proper;
    var i :| 0 <= i < |a| && path in PathsOf(a[i].patch);
    var j :| 0 <= j < |b| && b[j].patch == a[i].patch && b[j].baseline == a[i].baseline;
    assert LeftBy(d, a[i], path, sha) && LeftBy(e, b[j], path, sha);
    var f := SectionAt(a[i].patch, path);
    assert IsPatchOutput(a[i].patch, a[i].baseline, blob, fold);
    AloneGives(a[i], f, blob, fold);
    AloneGives(b[j], f, blob, fold);
    ResultOf(a[i].patch.files, a[i].outcome.value, f);
    ResultOf(a[i].patch.files, b[j].outcome.value, f);
    SameTaken(a[i], b[j], f, a, b, blobs, blob);
  }

  lemma SameTaken(r: Replay, s: Replay, f: P.FilePatch, a: seq<Replay>, b: seq<Replay>, blobs: set<Bytes>, blob: BlobId)
    requires r in a && s in b && s.patch == r.patch && f in r.patch.files && r.outcome.Some? && s.outcome.Some?
    requires Gives(f, r.outcome.value, blob) && Gives(f, s.outcome.value, blob)
    requires NoCollision(blob, blobs) && Replayed(a) <= blobs && Replayed(b) <= blobs
    ensures Taken(f, r.outcome.value) == Taken(f, s.outcome.value)
  {
    if f.post.Some? {
      assert r.outcome.value.files[f.path].raw in Replayed(a);
      assert s.outcome.value.files[f.path].raw in Replayed(b);
    }
  }

  lemma AloneGives(r: Replay, f: P.FilePatch, blob: BlobId, fold: Fold)
    requires Alone(r, blob, fold) && f in r.patch.files
    ensures r.outcome.Some? && Gives(f, r.outcome.value, blob)
  {
  }

  /** Whether patches combine does not depend on their order either. */
  lemma SuccessAnyOrder<D>(a: seq<Replay>, b: seq<Replay>, blob: BlobId, fold: Fold, sha: Digest<D>)
    requires Admitted(a, blob, fold) && Agree(a) && multiset(a) == multiset(b)
    ensures Combine(a, blob, fold, sha).Some? <==> Combine(b, blob, fold, sha).Some?
  {
    hide Alone, IsPatchOutput, SameFiles, PathsOf, Combine;
    forall i | 0 <= i < |b| ensures b[i] in a { assert b[i] in multiset(b); }
    forall i | 0 <= i < |a| ensures a[i] in b { assert a[i] in multiset(a); }
    assert Admitted(b, blob, fold) && Agree(b);
    CombinesExactly(a, blob, fold, sha);
    CombinesExactly(b, blob, fold, sha);
    if Disjoint(a) { DisjointAnyOrder(a, b); }
    if Disjoint(b) { DisjointAnyOrder(b, a); }
  }

  lemma DisjointAnyOrder(a: seq<Replay>, b: seq<Replay>)
    requires Disjoint(a) && multiset(a) == multiset(b)
    ensures Disjoint(b)
  {
    hide PathsOf;
    forall i, j | 0 <= i < j < |b| ensures PathsOf(b[i].patch) !! PathsOf(b[j].patch) {
      var k, l := TwoPlaces(b, a, i, j);
      if k < l {
        assert PathsOf(a[k].patch) !! PathsOf(a[l].patch);
      } else {
        assert PathsOf(a[l].patch) !! PathsOf(a[k].patch);
      }
    }
  }
}
