/**
 * Replaying patch outputs onto the files they touch, and the delivery a completed run makes.
 * `git apply` is any outcome at all: a failure, or some tree that the code then checks.
 */
module Delivery {
  import opened Prelude
  import opened Paths
  import P = Patches

  const MAX_BYTES := 16 * 1024 * 1024

  /** How many entries the walk over a replayed tree accepts. */
  const MAX_ENTRIES := P.MAX_FILES * 4

  datatype File = File(mode: string, raw: Bytes)

  /** What stands at a path that is not a directory; a link or a special file is not regular. */
  datatype Node = Regular(raw: Bytes) | NotRegular

  /** The files and directories below a root, by path. */
  datatype Layout = Layout(files: map<string, Node>, dirs: set<string>)

  /** No path is both, and whatever lies below another path lies below a directory. */
  predicate IsTree(t: Layout) {
    && t.files.Keys !! t.dirs
    && forall p, k :: p in t.files.Keys + t.dirs && 0 < k < |p| && p[k] == '/' ==> p[..k] in t.dirs
  }

  type Tree = t: Layout | IsTree(t) witness Layout(map[], {})

  type Baseline = map<string, File>

  /** The current file of each touched path; None once it is deleted or while it does not exist. */
  type State = map<string, Option<File>>

  /** Git's object id of some bytes. */
  type BlobId = Bytes -> string

  datatype Patch = Patch(name: string, files: seq<P.FilePatch>)

  /** One replay: the patch, the attempt's captured files, and what `git apply` did with it. */
  datatype Replay = Replay(patch: Patch, baseline: Baseline, outcome: Option<Tree>)

  function Get(files: Baseline, path: string): Option<File> {
    if path in files then Some(files[path]) else None
  }

  function PathsOf(patch: Patch): set<string> {
    set f | f in patch.files :: f.path
  }

  // ------------------------------------------------------------------ patch outputs

  /** The pre-image a section records is the file that stands there. */
  predicate Fits(item: P.FilePatch, current: Option<File>, blob: BlobId) {
    match item.pre
    case None => current.None?
    case Some(id) => current.Some? && current.value.mode == item.mode && blob(current.value.raw) == id
  }

  /** What every section of a parsed patch is: some change, to a path named once. */
  predicate Proper(files: seq<P.FilePatch>) {
    && (forall i :: 0 <= i < |files| ==> files[i].pre != files[i].post)
    && (forall i, j :: 0 <= i < j < |files| ==> files[i].path != files[j].path)
  }

  /** A patch output: proper sections, safe paths, and pre-images exactly the attempt's baseline. */
  predicate IsPatchOutput(patch: Patch, baseline: Baseline, blob: BlobId, fold: Fold) {
    && Proper(patch.files)
    && forall f :: f in patch.files ==> !Unsafe(f.path, fold) && Fits(f, Get(baseline, f.path), blob)
  }

  /** `_patch`, from the decoded bytes of an output. */
  method PatchOutput(name: string, decoded: Option<string>, baseline: Baseline, blob: BlobId, fold: Fold)
    returns (r: Option<Patch>)
    ensures r.Some? <==> decoded.Some? && P.Parse(decoded.value).Some? && P.Parse(decoded.value).value != []
                         && IsPatchOutput(Patch(name, P.Parse(decoded.value).value), baseline, blob, fold)
    ensures r.Some? ==> r.value == Patch(name, P.Parse(decoded.value).value)
  {
    hide P.Parse, Fits, Unsafe;
    if decoded.None? {
      return None;
    }
    var sections := P.Parse(decoded.value);
    if sections.None? || sections.value == [] {
      return None;
    }
    ParsedIsProper(decoded.value);
    var files := sections.value;
    for i := 0 to |files|
      invariant forall k :: 0 <= k < i ==>
                  !Unsafe(files[k].path, fold) && Fits(files[k], Get(baseline, files[k].path), blob)
    {
      if Unsafe(files[i].path, fold) || !Fits(files[i], Get(baseline, files[i].path), blob) {
        return None;
      }
    }
    return Some(Patch(name, files));
  }

  lemma ParsedIsProper(text: string)
    requires P.Parse(text).Some?
    ensures Proper(P.Parse(text).value)
  {
    hide P.ParseSection, Split;
    var lines := Split(text[..|text| - 1], '\n');
    SectionsAreProper(lines, []);
  }

  lemma {:induction false} SectionsAreProper(lines: seq<string>, files: seq<P.FilePatch>)
    requires Proper(files) && P.ParseSections(lines, files).Some?
    ensures Proper(P.ParseSections(lines, files).value)
    decreases |lines|
  {
    hide P.ParseSection;
    if lines != [] {
      var (file, rest) := P.ParseSection(lines).value;
      SectionChanges(lines);
      SectionsAreProper(rest, files + [file]);
    }
  }

  lemma SectionChanges(lines: seq<string>)
    requires lines != [] && P.ParseSection(lines).Some?
    ensures P.ParseSection(lines).value.0.pre != P.ParseSection(lines).value.0.post
  {
    hide P.HeaderPath, P.ParseMode, P.ParseIndex, P.AfterContent;
  }

  // ------------------------------------------------------------------ one replay

  /** The tree holds a section's recorded result. */
  predicate Gives(item: P.FilePatch, tree: Tree, blob: BlobId) {
    match item.post
    case None => item.path !in tree.files && item.path !in tree.dirs
    case Some(id) =>
      && item.path in tree.files && tree.files[item.path].Regular?
      && |tree.files[item.path].raw| <= MAX_BYTES && blob(tree.files[item.path].raw) == id
  }

  function Kept(patch: Patch): set<string> {
    set f | f in patch.files && f.post.Some? :: f.path
  }

  /** Every check of `apply` passes. */
  predicate Applies(state: State, patch: Patch, outcome: Option<Tree>, blob: BlobId, fold: Fold)
    requires PathsOf(patch) <= state.Keys
  {
    && (forall f :: f in patch.files ==>
          f.path in PathsOf(patch) && !Unsafe(f.path, fold) && Fits(f, state[f.path], blob))
    && outcome.Some?
    && (forall f :: f in patch.files ==> Gives(f, outcome.value, blob))
    && outcome.value.files.Keys == Kept(patch)
    && |outcome.value.files| + |outcome.value.dirs| <= MAX_ENTRIES
  }

  /** One section's part in a replay: its pre-image stands, and what it declares comes out. */
  predicate Replays(f: P.FilePatch, before: Option<File>, tree: Tree, blob: BlobId) {
    && (f.pre.None? <==> before.None?)
    && (f.pre.Some? ==> before.value.mode == f.mode && blob(before.value.raw) == f.pre.value)
    && (f.post.None? ==> f.path !in tree.files && f.path !in tree.dirs)
    && (f.post.Some? ==>
          && f.path in tree.files && tree.files[f.path].Regular? && |tree.files[f.path].raw| <= 16_777_216
          && blob(tree.files[f.path].raw) == f.post.value)
  }

  /** A patch applies exactly when each section replays on a safe path, and nothing else comes out, nor too much. */
  lemma AppliesExactly(state: State, patch: Patch, outcome: Option<Tree>, blob: BlobId, fold: Fold)
    requires PathsOf(patch) <= state.Keys
    ensures Applies(state, patch, outcome, blob, fold) <==>
      && outcome.Some? && |outcome.value.files| + |outcome.value.dirs| <= 40_000
      && (forall p :: p in outcome.value.files <==> exists f :: f in patch.files && f.post.Some? && f.path == p)
      && (forall f :: f in patch.files ==>
            f.path in state && !Unsafe(f.path, fold) && Replays(f, state[f.path], outcome.value, blob))
  {
    hide Unsafe;
    assert forall f :: f in patch.files ==> f.path in PathsOf(patch);
    if outcome.Some? {
      forall f | f in patch.files
        ensures Replays(f, state[f.path], outcome.value, blob) <==>
                Fits(f, state[f.path], blob) && Gives(f, outcome.value, blob)
      {
      }
      assert outcome.value.files.Keys == Kept(patch) <==>
        forall p :: p in outcome.value.files <==> p in Kept(patch);
    }
  }

  lemma AboveIsDirectory(t: Tree, path: string, below: string)
    requires path != "" && below in t.files
    ensures path + "/" <= below ==> path in t.dirs
  {
    if path + "/" <= below && |below| > |path| {
      assert below[|path|] == (path + "/")[|path|] == '/';
      assert below[..|path|] == (path + "/")[..|path|] == path;
      assert below in t.files.Keys + t.dirs;
    }
  }

  /** A deletion that applies leaves nothing at its path, and so nothing below it either. */
  lemma DeletedIsGone(state: State, patch: Patch, outcome: Option<Tree>, f: P.FilePatch, blob: BlobId, fold: Fold)
    requires PathsOf(patch) <= state.Keys && Applies(state, patch, outcome, blob, fold)
    requires f in patch.files && f.post.None? && f.path != ""
    ensures forall p :: p in outcome.value.files ==> p != f.path && !(f.path + "/" <= p)
  {
    hide Fits, Unsafe;
    assert Gives(f, outcome.value, blob);
    forall p | p in outcome.value.files ensures p != f.path && !(f.path + "/" <= p) {
      AboveIsDirectory(outcome.value, f.path, p);
    }
  }

  /** Each touched path's result: its recorded mode with the replayed bytes, or None once deleted. */
  function Results(files: seq<P.FilePatch>, tree: Tree): State {
    if files == [] then map[]
    else
      var f := files[|files| - 1];
      Results(files[..|files| - 1], tree)[f.path := Taken(f, tree)]
  }

  /** What a section leaves of its path: the file the tree holds there, under the section's mode. */
  function Taken(f: P.FilePatch, tree: Tree): Option<File> {
    if f.post.Some? && f.path in tree.files && tree.files[f.path].Regular?
    then Some(File(f.mode, tree.files[f.path].raw))
    else None
  }

  /** A patch output changes safe, distinct paths, each as the baseline has it. */
  lemma PatchOutputExactly(patch: Patch, baseline: Baseline, blob: BlobId, fold: Fold)
    ensures IsPatchOutput(patch, baseline, blob, fold) <==>
      && (forall i, j :: 0 <= i < j < |patch.files| ==> patch.files[i].path != patch.files[j].path)
      && forall f :: f in patch.files ==>
           && f.pre != f.post && !Unsafe(f.path, fold) && (f.pre.Some? <==> f.path in baseline)
           && (f.pre.Some? ==> baseline[f.path].mode == f.mode && blob(baseline[f.path].raw) == f.pre.value)
  {
    hide Unsafe;
    var files := patch.files;
    assert forall i :: 0 <= i < |files| ==> files[i] in files;
    forall f | f in files
      ensures Fits(f, Get(baseline, f.path), blob) <==>
        && (f.pre.Some? <==> f.path in baseline)
        && (f.pre.Some? ==> baseline[f.path].mode == f.mode && blob(baseline[f.path].raw) == f.pre.value)
    {
    }
  }

  lemma {:induction false} ResultOf(files: seq<P.FilePatch>, tree: Tree, f: P.FilePatch)
    requires Proper(files) && f in files
    ensures f.path in Results(files, tree)
    ensures Results(files, tree)[f.path] == Taken(f, tree)
  {
    hide Taken;
    var last := |files| - 1;
    assert Results(files, tree) == Results(files[..last], tree)[files[last].path := Taken(files[last], tree)];
    if f != files[last] {
      var i :| 0 <= i < last && files[i] == f;
      assert files[i].path != files[last].path;
      assert files[..last][i] == f;
      ProperInit(files);
      hide Proper;
      ResultOf(files[..last], tree, f);
    }
  }

  lemma ProperInit(files: seq<P.FilePatch>)
    requires Proper(files) && files != []
    ensures Proper(files[..|files| - 1])
  {
    var init := files[..|files| - 1];
    assert forall i :: 0 <= i < |init| ==> init[i] == files[i];
  }

  lemma {:induction false} ResultPaths(files: seq<P.FilePatch>, tree: Tree)
    ensures Results(files, tree).Keys == set f | f in files :: f.path
  {
    if files != [] {
      ResultPaths(files[..|files| - 1], tree);
      assert files == files[..|files| - 1] + [files[|files| - 1]];
    }
  }

  lemma NoResults(tree: Tree)
    ensures Results([], tree) == map[]
  {
  }

  lemma ResultsNext(files: seq<P.FilePatch>, i: nat, tree: Tree)
    requires i < |files|
    ensures Results(files[..i + 1], tree) == Results(files[..i], tree)[files[i].path := Taken(files[i], tree)]
  {
    assert files[..i + 1][..i] == files[..i];
  }

  /** The first `n` sections change safe paths and fit their files. */
  ghost predicate FirstFit(state: State, files: seq<P.FilePatch>, n: nat, blob: BlobId, fold: Fold) {
    forall k :: 0 <= k < n <= |files| ==>
      !Unsafe(files[k].path, fold) && files[k].path in state && Fits(files[k], state[files[k].path], blob)
  }

  ghost predicate FirstGiven(files: seq<P.FilePatch>, n: nat, tree: Tree, blob: BlobId) {
    forall k :: 0 <= k < n <= |files| ==> Gives(files[k], tree, blob)
  }

  lemma NextFits(state: State, files: seq<P.FilePatch>, i: nat, blob: BlobId, fold: Fold)
    requires i < |files| && files[i].path in state
    ensures FirstFit(state, files, i, blob, fold) ==>
      (FirstFit(state, files, i + 1, blob, fold) <==>
       !Unsafe(files[i].path, fold) && Fits(files[i], state[files[i].path], blob))
    ensures FirstFit(state, files, |files|, blob, fold) ==> FirstFit(state, files, i + 1, blob, fold)
  {
    hide Fits, Unsafe;
  }

  lemma NextGiven(files: seq<P.FilePatch>, i: nat, tree: Tree, blob: BlobId)
    requires i < |files|
    ensures FirstGiven(files, i, tree, blob) ==>
      (FirstGiven(files, i + 1, tree, blob) <==> Gives(files[i], tree, blob))
    ensures FirstGiven(files, |files|, tree, blob) ==> FirstGiven(files, i + 1, tree, blob)
  {
    hide Gives;
  }

  /** What applying takes, section by section. */
  lemma AppliesBySection(state: State, patch: Patch, outcome: Option<Tree>, blob: BlobId, fold: Fold)
    requires PathsOf(patch) <= state.Keys
    ensures forall k :: 0 <= k < |patch.files| ==> patch.files[k].path in state
    ensures FirstFit(state, patch.files, 0, blob, fold)
    ensures outcome.Some? ==> FirstGiven(patch.files, 0, outcome.value, blob)
    ensures Applies(state, patch, outcome, blob, fold) <==>
      && FirstFit(state, patch.files, |patch.files|, blob, fold)
      && outcome.Some? && FirstGiven(patch.files, |patch.files|, outcome.value, blob)
      && outcome.value.files.Keys == Kept(patch)
      && |outcome.value.files| + |outcome.value.dirs| <= MAX_ENTRIES
  {
    hide Fits, Unsafe, Gives, Kept;
    assert forall k :: 0 <= k < |patch.files| ==> patch.files[k].path in PathsOf(patch);
  }

  /** `apply`, on the current files of the paths a patch touches. */
  method Apply(state: State, patch: Patch, outcome: Option<Tree>, blob: BlobId, fold: Fold) returns (r: Option<State>)
    requires PathsOf(patch) <= state.Keys
    ensures r.Some? <==> Applies(state, patch, outcome, blob, fold)
    ensures r.Some? ==> r.value == Results(patch.files, outcome.value)
  {
    hide Applies, Fits, Unsafe, Gives, Results, Kept, PathsOf, Taken, FirstFit, FirstGiven;
    var files := patch.files;
    AppliesBySection(state, patch, outcome, blob, fold);
    for i := 0 to |files|
      invariant FirstFit(state, files, i, blob, fold)
    {
      NextFits(state, files, i, blob, fold);
      if Unsafe(files[i].path, fold) || !Fits(files[i], state[files[i].path], blob) {
        return None;
      }
    }
    if outcome.None? {
      return None;
    }
    var tree := outcome.value;
    var result: State := map[];
    NoResults(tree);
    for i := 0 to |files|
      invariant FirstGiven(files, i, tree, blob)
      invariant result == Results(files[..i], tree)
    {
      var f := files[i];
      NextGiven(files, i, tree, blob);
      if !Gives(f, tree, blob) {
        return None;
      }
      ResultsNext(files, i, tree);
      result := result[f.path := Taken(f, tree)];
    }
    assert files[..|files|] == files;
    if |tree.files| + |tree.dirs| > MAX_ENTRIES || tree.files.Keys != Kept(patch) {
      return None;
    }
    return Some(result);
  }

  // ------------------------------------------------------------------ a delivery of patches

  /** The files of touched paths and their before-image digests, as `_delivery` collects them. */
  datatype Delivered<D> = Delivered(state: State, before: map<string, Option<D>>)

  type Digest<D> = Bytes -> D

  function DigestOf<D>(file: Option<File>, sha: Digest<D>): Option<D> {
    if file.Some? then Some(sha(file.value.raw)) else None
  }

  /** A patch's untouched paths enter with the attempt's baseline. */
  function Enter(state: State, r: Replay): State {
    state + map p | p in PathsOf(r.patch) && p !in state :: Get(r.baseline, p)
  }

  function Recorded<D>(d: Delivered<D>, r: Replay, sha: Digest<D>): map<string, Option<D>> {
    d.before + map p | p in PathsOf(r.patch) && p !in d.state :: DigestOf(Get(r.baseline, p), sha)
  }

  /** All patches replayed in turn; None where one cannot be combined. */
  function Combine<D>(replays: seq<Replay>, blob: BlobId, fold: Fold, sha: Digest<D>): Option<Delivered<D>> {
    if replays == [] then Some(Delivered(map[], map[]))
    else
      var r := replays[|replays| - 1];
      match Combine(replays[..|replays| - 1], blob, fold, sha)
      case None => None
      case Some(d) =>
        var state := Enter(d.state, r);
        if !Applies(state, r.patch, r.outcome, blob, fold) then None
        else Some(Delivered(state + Results(r.patch.files, r.outcome.value), Recorded(d, r, sha)))
  }

  /** The delivered files, and the before-images of what is delivered or deleted. */
  datatype Outcome<D> = Outcome(delivered: map<string, File>, before: map<string, Option<D>>)

  function Finish<D>(d: Delivered<D>): Outcome<D> {
    var delivered := map p | p in d.state && d.state[p].Some? :: d.state[p].value;
    Outcome(delivered, map p | p in d.before && (p in delivered || d.before[p].Some?) :: d.before[p])
  }

  /** `_delivery` when some output is a patch. */
  method DeliverPatches<D>(replays: seq<Replay>, blob: BlobId, fold: Fold, sha: Digest<D>)
    returns (r: Option<Outcome<D>>)
    ensures r == match Combine(replays, blob, fold, sha)
                 case None => None
                 case Some(d) => Some(Finish(d))
  {
    hide Applies, Results, Finish;
    var state: State := map[];
    var before: map<string, Option<D>> := map[];
    for i := 0 to |replays|
      invariant Combine(replays[..i], blob, fold, sha) == Some(Delivered(state, before))
    {
      var replay := replays[i];
      assert replays[..i + 1][..i] == replays[..i];
      var entered := Enter(state, replay);
      before := Recorded(Delivered(state, before), replay, sha);
      var applied := Apply(entered, replay.patch, replay.outcome, blob, fold);
      if applied.None? {
        CombineStops(replays, i + 1, blob, fold, sha);
        return None;
      }
      state := entered + applied.value;
    }
    assert replays[..|replays|] == replays;
    return Some(Finish(Delivered(state, before)));
  }

  lemma {:induction false} CombineStops<D>(replays: seq<Replay>, k: nat, blob: BlobId, fold: Fold, sha: Digest<D>)
    requires k <= |replays| && Combine(replays[..k], blob, fold, sha).None?
    ensures Combine(replays, blob, fold, sha).None?
  {
    if k == |replays| {
      assert replays[..k] == replays;
    } else {
      var init := replays[..|replays| - 1];
      assert init[..k] == replays[..k];
      CombineStops(init, k, blob, fold, sha);
    }
  }

  // ------------------------------------------------------------------ a delivery of whole files

  /** Every output can stand at a project path, and outputs of one name have one content. */
  predicate Deliverable(outputs: seq<(string, Bytes)>, fold: Fold) {
    && (forall i :: 0 <= i < |outputs| ==> SafePath(outputs[i].0, fold))
    && (forall i, j :: 0 <= i < |outputs| && 0 <= j < |outputs| && outputs[i].0 == outputs[j].0 ==>
          outputs[i].1 == outputs[j].1)
  }

  lemma NothingToDeliver(outputs: seq<(string, Bytes)>, fold: Fold)
    ensures Deliverable(outputs[..0], fold)
  {
  }

  /** A list is deliverable up to its next output exactly when that is safe and repeats no name with other bytes. */
  lemma OneMoreOutput(outputs: seq<(string, Bytes)>, i: nat, fold: Fold)
    requires i < |outputs| && Deliverable(outputs[..i], fold)
    ensures Deliverable(outputs[..i + 1], fold) <==>
            SafePath(outputs[i].0, fold)
            && forall k :: 0 <= k < i && outputs[k].0 == outputs[i].0 ==> outputs[k].1 == outputs[i].1
    ensures Deliverable(outputs, fold) ==> Deliverable(outputs[..i + 1], fold)
  {
    hide SafePath;
    var some := outputs[..i + 1];
    assert forall k :: 0 <= k <= i ==> some[k] == outputs[k];
    assert forall k :: 0 <= k < i ==> outputs[..i][k] == outputs[k];
  }

  /** `_delivery` when no output is a patch. */
  method DeliverFiles<D>(outputs: seq<(string, Bytes)>, base: Baseline, fold: Fold, sha: Digest<D>)
    returns (r: Option<Outcome<D>>)
    ensures r.Some? <==> Deliverable(outputs, fold)
    ensures r.Some? ==>
              && r.value.delivered.Keys == r.value.before.Keys == (set i | 0 <= i < |outputs| :: outputs[i].0)
              && forall i :: 0 <= i < |outputs| ==>
                   && r.value.delivered[outputs[i].0] == File("100644", outputs[i].1)
                   && r.value.before[outputs[i].0] ==
                      if outputs[i].0 in base then Some(sha(base[outputs[i].0].raw)) else None
  {
    hide SafePath, Deliverable;
    var delivered: map<string, File> := map[];
    NothingToDeliver(outputs, fold);
    var before: map<string, Option<D>> := map[];
    for i := 0 to |outputs|
      invariant Deliverable(outputs[..i], fold)
      invariant delivered.Keys == before.Keys == set k | 0 <= k < i :: outputs[k].0
      invariant forall k :: 0 <= k < i ==> delivered[outputs[k].0] == File("100644", outputs[k].1)
      invariant forall k :: 0 <= k < i ==> before[outputs[k].0] == DigestOf(Get(base, outputs[k].0), sha)
    {
      var (name, raw) := outputs[i];
      OneMoreOutput(outputs, i, fold);
      if !SafePath(name, fold) || (name in delivered && delivered[name].raw != raw) {
        return None;
      }
      delivered := delivered[name := File("100644", raw)];
      before := before[name := DigestOf(Get(base, name), sha)];
    }
    assert outputs[..|outputs|] == outputs;
    return Some(Outcome(delivered, before));
  }
}
