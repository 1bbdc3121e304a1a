/** Binding a pull request to a verified delivery (`bind`). */
module Binding {
  import opened Prelude
  import opened Paths
  import opened VsaPrefix
  import opened Delivery
  import opened Receipts

  const MAX_CHANGED := 10_000

  /** The digest of each entry at a revision; None for a symlink, directory or submodule. */
  type View<D> = map<string, Option<D>>

  /** A pull request: each changed path's status, both revisions, and the history of its base. */
  datatype Change<!D> = Change(
    changed: map<string, string>, head: View<D>, base: View<D>, isAncestor: string -> Option<bool>)

  datatype Reason =
    | NotDeleted(path: string)
    | MissingAtHead(path: string)
    | NotAFile(path: string)
    | NotDelivered(path: string)
    | Differs(path: string)
    | NoBeforeImage(path: string)
    | ExistsAtBase(path: string)
    | BaseDiffers(path: string)
    | ForeignBase(commit: string)

  datatype Verdict =
    | Unavailable
    | NoFiles
    | Unbound(reasons: seq<Reason>)
    | Stale(reasons: seq<Reason>)
    | Accepted

  /** A table of the factory's paths, moved below the prefix. */
  function Moved<T>(m: map<string, T>, prefix: string): map<string, T> {
    assert forall name :: name in m ==> (prefix + name)[|prefix|..] == name;
    map path | path in (set name | name in m :: prefix + name) :: m[path[|prefix|..]]
  }

  lemma MovedAt<T>(m: map<string, T>, prefix: string, path: string)
    ensures path in Moved(m, prefix) <==> prefix <= path && path[|prefix|..] in m
    ensures path in Moved(m, prefix) ==> Moved(m, prefix)[path] == m[path[|prefix|..]]
  {
    if prefix <= path && path[|prefix|..] in m {
      assert prefix + path[|prefix|..] == path;
    }
    assert forall name :: name in m ==> (prefix + name)[|prefix|..] == name;
  }

  /** Why a changed path is not the delivery's doing, if it is not. */
  function HeadFault<D(==)>(c: Change<D>, path: string, subjects: map<string, D>, deleted: map<string, D>)
    : Option<Reason>
    requires path in c.changed
  {
    if c.changed[path] == "D" then if path in deleted then None else Some(NotDeleted(path))
    else if path !in c.head then Some(MissingAtHead(path))
    else if c.head[path].None? then Some(NotAFile(path))
    else if path !in subjects then Some(NotDelivered(path))
    else if c.head[path] != Some(subjects[path]) then Some(Differs(path))
    else None
  }

  /** Why a changed path was not built on what the base holds, if it was not. */
  function BaseFault<D(==)>(c: Change<D>, path: string, before: map<string, Option<D>>): Option<Reason> {
    if path !in before then Some(NoBeforeImage(path))
    else if before[path].None? then if path in c.base then Some(ExistsAtBase(path)) else None
    else if path !in c.base || c.base[path] != before[path] then Some(BaseDiffers(path))
    else None
  }

  function Listed(fault: Option<Reason>): seq<Reason> {
    if fault.Some? then [fault.value] else []
  }

  function HeadFaults<D(==)>(c: Change<D>, order: seq<string>, subjects: map<string, D>, deleted: map<string, D>)
    : seq<Reason>
    requires forall path :: path in order ==> path in c.changed
  {
    if order == [] then []
    else
      var init, last := order[..|order| - 1], order[|order| - 1];
      HeadFaults(c, init, subjects, deleted) + Listed(HeadFault(c, last, subjects, deleted))
  }

  function BaseFaults<D(==)>(c: Change<D>, order: seq<string>, before: map<string, Option<D>>): seq<Reason> {
    if order == [] then []
    else BaseFaults(c, order[..|order| - 1], before) + Listed(BaseFault(c, order[|order| - 1], before))
  }

  /** Everything stale about the change: a foreign base commit first, then the paths in order. */
  function StaleReasons<D(==)>(c: Change<D>, order: seq<string>, before: map<string, Option<D>>,
                               commit: Option<string>): seq<Reason> {
    (if commit.Some? && c.isAncestor(commit.value) == Some(false) then [ForeignBase(commit.value)] else [])
    + BaseFaults(c, order, before)
  }

  /** The verdict of `bind`, with the reasons in the order of the changed paths. */
  function Judged<D(==)>(c: Change<D>, prefix: string, b: Bound<D>, order: seq<string>): Verdict
    requires forall path :: path in order ==> path in c.changed
  {
    var unbound := HeadFaults(c, order, Moved(b.subjects, prefix), Moved(b.deleted, prefix));
    var stale := StaleReasons(c, order, Moved(b.before, prefix), b.commit);
    if |c.changed| == 0 then NoFiles
    else if |c.changed| > MAX_CHANGED then Unavailable
    else if unbound != [] then Unbound(unbound)
    else if b.commit.Some? && c.isAncestor(b.commit.value).None? then Unavailable
    else if stale != [] then Stale(stale)
    else Accepted
  }

  /** `bind`; `order` lists the changed paths as they are reported. */
  method Bind<D(==)>(c: Change<D>, prefix: string, b: Bound<D>, order: seq<string>) returns (v: Verdict)
    requires Lists(order, c.changed.Keys)
    ensures v == Judged(c, prefix, b, order)
  {
    hide Moved, HeadFault, BaseFault, Listed, HeadFaults, BaseFaults;
    var subjects, deleted, before := Moved(b.subjects, prefix), Moved(b.deleted, prefix), Moved(b.before, prefix);
    if |c.changed| == 0 {
      return NoFiles;
    }
    if |c.changed| > MAX_CHANGED {
      return Unavailable;
    }
    NoFaultsYet(c, subjects, deleted, before);
    var unbound: seq<Reason> := [];
    for i := 0 to |order|
      invariant unbound == HeadFaults(c, order[..i], subjects, deleted)
    {
      assert order[..i + 1] == order[..i] + [order[i]];
      HeadFaultsNext(c, order[..i], order[i], subjects, deleted);
      unbound := unbound + Listed(HeadFault(c, order[i], subjects, deleted));
    }
    assert order[..|order|] == order;
    if unbound != [] {
      return Unbound(unbound);
    }
    var stale: seq<Reason> := [];
    for i := 0 to |order|
      invariant stale == BaseFaults(c, order[..i], before)
    {
      assert order[..i + 1] == order[..i] + [order[i]];
      BaseFaultsNext(c, order[..i], order[i], before);
      stale := stale + Listed(BaseFault(c, order[i], before));
    }
    if b.commit.Some? {
      var ancestor := c.isAncestor(b.commit.value);
      if ancestor.None? {
        return Unavailable;
      }
      if !ancestor.value {
        stale := [ForeignBase(b.commit.value)] + stale;
      }
    }
    return if stale != [] then Stale(stale) else Accepted;
  }

  lemma NoFaultsYet<D>(c: Change<D>, subjects: map<string, D>, deleted: map<string, D>, before: map<string, Option<D>>)
    ensures HeadFaults(c, [], subjects, deleted) == [] && BaseFaults(c, [], before) == []
  {
  }

  lemma HeadFaultsNext<D>(c: Change<D>, some: seq<string>, path: string, subjects: map<string, D>,
                          deleted: map<string, D>)
    requires path in c.changed && forall p :: p in some ==> p in c.changed
    ensures HeadFaults(c, some + [path], subjects, deleted)
      == HeadFaults(c, some, subjects, deleted) + Listed(HeadFault(c, path, subjects, deleted))
  {
    assert (some + [path])[..|some|] == some;
  }

  lemma BaseFaultsNext<D>(c: Change<D>, some: seq<string>, path: string, before: map<string, Option<D>>)
    ensures BaseFaults(c, some + [path], before) == BaseFaults(c, some, before) + Listed(BaseFault(c, path, before))
  {
    assert (some + [path])[..|some|] == some;
  }

  lemma {:induction false} HeadFaultsFound<D>(c: Change<D>, order: seq<string>, subjects: map<string, D>,
                                              deleted: map<string, D>)
    requires forall path :: path in order ==> path in c.changed
    ensures forall e :: e in HeadFaults(c, order, subjects, deleted) <==>
      exists i :: 0 <= i < |order| && HeadFault(c, order[i], subjects, deleted) == Some(e)
  {
    hide HeadFault;
    if order != [] {
      var init, last := order[..|order| - 1], |order| - 1;
      HeadFaultsFound(c, init, subjects, deleted);
      forall e ensures (exists i :: 0 <= i < |order| && HeadFault(c, order[i], subjects, deleted) == Some(e)) <==>
          (exists i :: 0 <= i < last && HeadFault(c, init[i], subjects, deleted) == Some(e))
          || HeadFault(c, order[last], subjects, deleted) == Some(e) {
        assert forall i :: 0 <= i < last ==> init[i] == order[i];
      }
    }
  }

  lemma {:induction false} BaseFaultsFound<D>(c: Change<D>, order: seq<string>, before: map<string, Option<D>>)
    ensures forall e :: e in BaseFaults(c, order, before) <==>
      exists i :: 0 <= i < |order| && BaseFault(c, order[i], before) == Some(e)
  {
    hide BaseFault;
    if order != [] {
      var init, last := order[..|order| - 1], |order| - 1;
      BaseFaultsFound(c, init, before);
      forall e ensures (exists i :: 0 <= i < |order| && BaseFault(c, order[i], before) == Some(e)) <==>
          (exists i :: 0 <= i < last && BaseFault(c, init[i], before) == Some(e))
          || BaseFault(c, order[last], before) == Some(e) {
        assert forall i :: 0 <= i < last ==> init[i] == order[i];
      }
    }
  }

  lemma NoHeadFaults<D>(c: Change<D>, order: seq<string>, subjects: map<string, D>, deleted: map<string, D>)
    requires Lists(order, c.changed.Keys)
    ensures HeadFaults(c, order, subjects, deleted) == [] <==>
      forall path :: path in c.changed ==> HeadFault(c, path, subjects, deleted).None?
  {
    hide HeadFault, HeadFaults;
    var faults := HeadFaults(c, order, subjects, deleted);
    HeadFaultsFound(c, order, subjects, deleted);
    if faults != [] {
      assert faults[0] in faults;
      var i :| 0 <= i < |order| && HeadFault(c, order[i], subjects, deleted) == Some(faults[0]);
      assert order[i] in order;
    } else {
      forall path | path in c.changed ensures HeadFault(c, path, subjects, deleted).None? {
        var i :| 0 <= i < |order| && order[i] == path;
        var fault := HeadFault(c, order[i], subjects, deleted);
        assert forall e :: fault == Some(e) ==> e in faults;
      }
    }
  }

  lemma NoBaseFaults<D>(c: Change<D>, order: seq<string>, before: map<string, Option<D>>)
    requires Lists(order, c.changed.Keys)
    ensures BaseFaults(c, order, before) == [] <==>
      forall path :: path in c.changed ==> BaseFault(c, path, before).None?
  {
    hide BaseFault, BaseFaults;
    var faults := BaseFaults(c, order, before);
    BaseFaultsFound(c, order, before);
    if faults != [] {
      assert faults[0] in faults;
      var i :| 0 <= i < |order| && BaseFault(c, order[i], before) == Some(faults[0]);
      assert order[i] in order;
    } else {
      forall path | path in c.changed ensures BaseFault(c, path, before).None? {
        var i :| 0 <= i < |order| && order[i] == path;
        var fault := BaseFault(c, order[i], before);
        assert forall e :: fault == Some(e) ==> e in faults;
      }
    }
  }

  /** The change is accepted exactly when it has files, not too many, none at fault, and a base that is known. */
  lemma AcceptedExactly<D>(c: Change<D>, prefix: string, b: Bound<D>, order: seq<string>)
    requires Lists(order, c.changed.Keys)
    ensures var subjects, deleted := Moved(b.subjects, prefix), Moved(b.deleted, prefix);
            var before := Moved(b.before, prefix);
            Judged(c, prefix, b, order).Accepted? <==>
              && 1 <= |c.changed| <= 10_000
              && (forall path :: path in c.changed ==>
                    HeadFault(c, path, subjects, deleted).None? && BaseFault(c, path, before).None?)
              && (b.commit.Some? ==> c.isAncestor(b.commit.value) == Some(true))
  {
    hide Moved, HeadFault, BaseFault, HeadFaults, BaseFaults;
    var subjects, deleted, before := Moved(b.subjects, prefix), Moved(b.deleted, prefix), Moved(b.before, prefix);
    NoHeadFaults(c, order, subjects, deleted);
    NoBaseFaults(c, order, before);
    OnlyForeign(c, order, before, b.commit);
  }

  lemma OnlyForeign<D>(c: Change<D>, order: seq<string>, before: map<string, Option<D>>, commit: Option<string>)
    ensures StaleReasons(c, order, before, commit) == [] <==>
      BaseFaults(c, order, before) == [] && (commit.Some? ==> c.isAncestor(commit.value) in [None, Some(true)])
  {
    assert commit.Some? && c.isAncestor(commit.value).Some? ==>
      c.isAncestor(commit.value).value == true || c.isAncestor(commit.value).value == false;
  }

  /** The reasons stand in the order of the changed paths. */
  lemma {:induction false} ReasonsInOrder<D>(c: Change<D>, a: seq<string>, b: seq<string>, subjects: map<string, D>,
                                             deleted: map<string, D>, before: map<string, Option<D>>)
    requires forall path :: path in a + b ==> path in c.changed
    ensures (forall path :: path in a ==> path in c.changed) && forall path :: path in b ==> path in c.changed
    ensures HeadFaults(c, a + b, subjects, deleted) ==
            HeadFaults(c, a, subjects, deleted) + HeadFaults(c, b, subjects, deleted)
    ensures BaseFaults(c, a + b, before) == BaseFaults(c, a, before) + BaseFaults(c, b, before)
    ensures |b| == 1 ==>
      HeadFaults(c, b, subjects, deleted) == Listed(HeadFault(c, b[0], subjects, deleted))
      && BaseFaults(c, b, before) == Listed(BaseFault(c, b[0], before))
  {
    hide HeadFault, BaseFault, Listed, HeadFaults, BaseFaults;
    assert forall path :: path in a || path in b ==> path in a + b;
    if b == [] {
      assert a + b == a;
      NoFaultsYet(c, subjects, deleted, before);
    } else {
      var init, last := b[..|b| - 1], b[|b| - 1];
      assert b == init + [last];
      assert a + b == (a + init) + [last];
      ReasonsInOrder(c, a, init, subjects, deleted, before);
      HeadFaultsNext(c, a + init, last, subjects, deleted);
      BaseFaultsNext(c, a + init, last, before);
      HeadFaultsNext(c, init, last, subjects, deleted);
      BaseFaultsNext(c, init, last, before);
      NoFaultsYet(c, subjects, deleted, before);
    }
  }

  // ------------------------------------------------------------------ every other verdict

  /** What a receipt's table holds for a path of the repository. */
  function Of<T>(m: map<string, T>, prefix: string, path: string): Option<T> {
    if prefix <= path && path[|prefix|..] in m then Some(m[path[|prefix|..]]) else None
  }

  /** Each reason at head, and exactly when it is given. */
  lemma HeadReasons<D>(c: Change<D>, prefix: string, b: Bound<D>, path: string)
    requires path in c.changed
    ensures var fault := HeadFault(c, path, Moved(b.subjects, prefix), Moved(b.deleted, prefix));
      var subject, gone := Of(b.subjects, prefix, path), c.changed[path] == "D";
      && (fault == Some(NotDeleted(path)) <==> gone && Of(b.deleted, prefix, path).None?)
      && (fault == Some(MissingAtHead(path)) <==> !gone && path !in c.head)
      && (fault == Some(NotAFile(path)) <==> !gone && path in c.head && c.head[path].None?)
      && (fault == Some(NotDelivered(path)) <==> !gone && path in c.head && c.head[path].Some? && subject.None?)
      && (fault == Some(Differs(path)) <==>
            !gone && path in c.head && c.head[path].Some? && subject.Some? && c.head[path] != subject)
  {
    hide Moved;
    MovedAt(b.subjects, prefix, path);
    MovedAt(b.deleted, prefix, path);
  }

  /** Each reason at the base, and exactly when it is given. */
  lemma BaseReasons<D>(c: Change<D>, prefix: string, b: Bound<D>, path: string)
    ensures var fault, before := BaseFault(c, path, Moved(b.before, prefix)), Of(b.before, prefix, path);
      && (fault == Some(NoBeforeImage(path)) <==> before.None?)
      && (fault == Some(ExistsAtBase(path)) <==> before == Some(None) && path in c.base)
      && (fault == Some(BaseDiffers(path)) <==>
            before.Some? && before.value.Some? && (path !in c.base || c.base[path] != before.value))
  {
    hide Moved;
    MovedAt(b.before, prefix, path);
  }

  /** A changed path is at fault at head. */
  ghost predicate Unfit<D>(c: Change<D>, prefix: string, b: Bound<D>) {
    exists path :: path in c.changed
      && HeadFault(c, path, Moved(b.subjects, prefix), Moved(b.deleted, prefix)).Some?
  }

  ghost predicate Outdated<D>(c: Change<D>, prefix: string, b: Bound<D>) {
    exists path :: path in c.changed && BaseFault(c, path, Moved(b.before, prefix)).Some?
  }

  /**
   * Every verdict but acceptance: what is at fault at head comes before what is stale, and a history
   * that cannot be read matters only once nothing is at fault at head.
   */
  lemma VerdictsExactly<D>(c: Change<D>, prefix: string, b: Bound<D>, order: seq<string>)
    requires Lists(order, c.changed.Keys)
    ensures var v, fits := Judged(c, prefix, b, order), 1 <= |c.changed| <= 10_000;
      var history := if b.commit.Some? then c.isAncestor(b.commit.value) else Some(true);
      && (v == NoFiles <==> c.changed == map[])
      && (v.Unbound? <==> fits && Unfit(c, prefix, b))
      && (v == Unavailable <==> |c.changed| > 10_000 || (fits && !Unfit(c, prefix, b) && history.None?))
      && (v.Stale? <==> fits && !Unfit(c, prefix, b) && history.Some? && (!history.value || Outdated(c, prefix, b)))
      && (v.Unbound? ==> v.reasons == HeadFaults(c, order, Moved(b.subjects, prefix), Moved(b.deleted, prefix)))
      && (v.Stale? ==>
            var foreign := if history == Some(false) then [ForeignBase(b.commit.value)] else [];
            v.reasons == foreign + BaseFaults(c, order, Moved(b.before, prefix)))
  {
    hide Moved, HeadFault, BaseFault, HeadFaults, BaseFaults;
    NoHeadFaults(c, order, Moved(b.subjects, prefix), Moved(b.deleted, prefix));
    NoBaseFaults(c, order, Moved(b.before, prefix));
    assert |c.changed| == 0 <==> c.changed == map[];
  }
}
