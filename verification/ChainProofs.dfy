/** Handoffs never miss or mix, and node states say how far a run came. */
module ChainProofs {
  import opened Prelude
  import Assess
  import Order
  import opened Resolution
  import opened ResolveGraph
  import opened Chain

  // ------------------------------------------------------------------ what an admitted graph gives

  /** An edge for one of these names, from the one producer of it. */
  predicate IsOwed(g: Catalog, names: seq<Name>, e: Edge) {
    e.name in names && g.Produced(e.name) && e.producer == g.Producer(e.name).path
  }

  predicate NamedIn(owed: seq<Edge>, name: Name) {
    exists m :: 0 <= m < |owed| && owed[m].name == name
  }

  /** The edges of a consumer are exactly its produced needs, each with its one producer. */
  lemma {:induction false} OwedNeeds(g: Catalog, c: Contract, names: seq<Name>)
    ensures forall e :: e in g.OwedFor(c, names) ==> IsOwed(g, names, e)
    ensures forall name :: name in names && g.Produced(name) ==> NamedIn(g.OwedFor(c, names), name)
  {
    if names != [] {
      var init, last := names[..|names| - 1], names[|names| - 1];
      OwedNeeds(g, c, init);
      assert names == init + [last];
      var before, owed := g.OwedFor(c, init), g.OwedFor(c, names);
      forall e | e in owed ensures IsOwed(g, names, e) {
        assert e in before ==> IsOwed(g, init, e);
      }
      forall name | name in names && g.Produced(name) ensures NamedIn(owed, name) {
        if name in init {
          var m :| 0 <= m < |before| && before[m].name == name;
          assert owed[m].name == name;
        } else {
          assert owed[|before|].name == name;
        }
      }
    }
  }

  lemma {:induction false} OwnEdges(edges: seq<Edge>, consumer: Name, e: Edge)
    requires e in EdgesOf(edges, consumer)
    ensures e in edges
  {
    if edges != [] && e in EdgesOf(edges[..|edges| - 1], consumer) {
      OwnEdges(edges[..|edges| - 1], consumer, e);
    }
  }

  /** An input of an ordered contract: needed, produced under that spelling, by one ordered before it. */
  lemma InputFacts(g: Catalog, selected: Option<Name>, r: Graph, i: nat, m: nat) returns (j: nat)
    requires g.Valid() && Admitted(g, selected, r) && i < |r.order| && m < |Inputs(r.edges, r.order[i])|
    ensures var name := Inputs(r.edges, r.order[i])[m];
      && name in r.order[i].needs && g.Produced(name)
      && j < i && r.order[j] == g.Producer(name) && name in r.order[j].outputs && Feeding(r.edges, r.order[j])
  {
    hide Catalog.Valid, Order.Sorted, Covers, RootsCollide, OutputsCollide, SourceCollides, Selects, Catalog.OwedFor;
    var c := r.order[i];
    var owed := EdgesOf(r.edges, c.path);
    var name := owed[m].name;
    assert c in r.order && owed == g.Owed(c);
    OwedNeeds(g, c, Order.Sorted(c.needs));
    assert owed[m] in owed && IsOwed(g, Order.Sorted(c.needs), owed[m]);
    assert g.Feeds(g.Producer(name), c);
    j :| 0 <= j < i && r.order[j] == g.Producer(name);
    OwnEdges(r.edges, c.path, owed[m]);
    assert owed[m].producer == r.order[j].path;
  }

  /** An output has one producer among the ordered contracts. */
  lemma OneProducer(g: Catalog, selected: Option<Name>, r: Graph, i: nat, j: nat, name: Name)
    requires g.Valid() && Admitted(g, selected, r) && i < |r.order| && j < |r.order|
    requires name in r.order[i].outputs && name in r.order[j].outputs
    ensures i == j
  {
    hide Covers, Wired, RootsCollide, OutputsCollide, SourceCollides, Selects;
    assert r.order[i] in g.items && r.order[j] in g.items;
    assert r.order[i] == g.producers[g.fold(name)] == r.order[j];
  }

  // ------------------------------------------------------------------ handoffs

  /** The bytes handed to a leaf: for each of its produced needs, the record of the run that produced it. */
  ghost predicate HandedRight(g: Catalog, r: Graph, world: World, i: int, bindings: seq<Binding>)
    requires 0 <= i < |r.order| == |world.leaves|
  {
    && |bindings| == |Inputs(r.edges, r.order[i])|
    && (forall m :: 0 <= m < |bindings| ==>
          bindings[m].name == Inputs(r.edges, r.order[i])[m] && FromProducer(g, r, world, i, bindings[m]))
    && (forall name :: name in r.order[i].needs && g.Produced(name) ==> name in Inputs(r.edges, r.order[i]))
  }

  ghost predicate FromProducer(g: Catalog, r: Graph, world: World, i: int, b: Binding)
    requires 0 <= i < |r.order| == |world.leaves|
  {
    && b.name in r.order[i].needs && g.Produced(b.name)
    && exists j :: 0 <= j < i && r.order[j] == g.Producer(b.name) && world.leaves[j].ran == Ok(b.run)
  }

  /** Exactly the outputs of the first `k` contracts that feed others, each under its producer's run. */
  ghost predicate AdmittedSoFar(r: Graph, world: World, k: int, admitted: map<Name, Binding>)
    requires 0 <= k <= |r.order| == |world.leaves|
  {
    forall i, name :: 0 <= i < k && Feeding(r.edges, r.order[i]) && name in r.order[i].outputs ==>
      name in admitted && admitted[name].name == name && world.leaves[i].ran == Ok(admitted[name].run)
  }

  lemma {:induction false} LookupsFind(names: seq<Name>, admitted: map<Name, Binding>)
    requires forall m :: 0 <= m < |names| ==> names[m] in admitted
    ensures var found := Lookups(names, admitted);
      found.Some? && |found.value| == |names| && forall m :: 0 <= m < |names| ==> found.value[m] == admitted[names[m]]
  {
    if names != [] {
      LookupsFind(names[..|names| - 1], admitted);
    }
  }

  /** Every lookup of a turn succeeds, in the record of the right run. */
  lemma BoundRight(g: Catalog, selected: Option<Name>, r: Graph, world: World, i: nat, admitted: map<Name, Binding>)
    requires g.Valid() && Admitted(g, selected, r) && i < |r.order| == |world.leaves|
    requires AdmittedSoFar(r, world, i, admitted)
    ensures var found := Lookups(Inputs(r.edges, r.order[i]), admitted);
      found.Some? && HandedRight(g, r, world, i, found.value)
  {
    hide Catalog.Valid, EdgesOf, Feeding, IsClosure, RootsCollide, OutputsCollide, SourceCollides, Selects;
    var names := Inputs(r.edges, r.order[i]);
    forall m | 0 <= m < |names|
      ensures names[m] in admitted && admitted[names[m]].name == names[m]
          && FromProducer(g, r, world, i, admitted[names[m]])
    {
      var j := InputFacts(g, selected, r, i, m);
      assert names[m] in r.order[j].outputs;
    }
    LookupsFind(names, admitted);
    NeedsCovered(g, selected, r, i);
  }

  lemma NeedsCovered(g: Catalog, selected: Option<Name>, r: Graph, i: nat)
    requires Admitted(g, selected, r) && i < |r.order|
    ensures forall name :: name in r.order[i].needs && g.Produced(name) ==> name in Inputs(r.edges, r.order[i])
  {
    hide Covers, RootsCollide, OutputsCollide, SourceCollides, Selects, Catalog.OwedFor;
    var c := r.order[i];
    assert c in r.order && EdgesOf(r.edges, c.path) == g.Owed(c);
    OwedNeeds(g, c, Order.Sorted(c.needs));
    forall name | name in c.needs && g.Produced(name) ensures name in Inputs(r.edges, c) {
      assert NamedIn(g.Owed(c), name);
      var m :| 0 <= m < |g.Owed(c)| && g.Owed(c)[m].name == name;
      assert Inputs(r.edges, c)[m] == name;
    }
  }

  lemma AdmitGrows(g: Catalog, selected: Option<Name>, r: Graph, world: World, i: nat, admitted: map<Name, Binding>)
    requires g.Valid() && Admitted(g, selected, r) && i < |r.order| == |world.leaves|
    requires AdmittedSoFar(r, world, i, admitted) && world.leaves[i].ran.Ok?
    ensures AdmittedSoFar(r, world, i + 1, Admit(admitted, r.order[i], world.leaves[i].ran.value))
  {
    hide Catalog.Valid, IsClosure, RootsCollide, OutputsCollide, SourceCollides, Selects, Feeding;
    var c := r.order[i];
    var grown := Admit(admitted, c, world.leaves[i].ran.value);
    forall j, name | 0 <= j < i + 1 && Feeding(r.edges, r.order[j]) && name in r.order[j].outputs
      ensures name in grown && grown[name].name == name && world.leaves[j].ran == Ok(grown[name].run)
    {
      if name in c.outputs {
        OneProducer(g, selected, r, i, j, name);
      }
    }
  }

  // ------------------------------------------------------------------ every turn

  /** What the walk keeps: states, runs, handoffs; and no lookup has failed. */
  ghost predicate Kept(g: Catalog, r: Graph, world: World, k: int, w: Walk)
    requires 0 <= k <= |r.order| == |world.leaves|
  {
    && |w.states| == |r.order|
    && w.ended != Some(KeyError)
    && |w.handed| <= k
    && (forall i :: 0 <= i < |w.handed| ==> HandedRight(g, r, world, i, w.handed[i]))
    && (if w.ended.None? then
          && (forall i :: 0 <= i < |w.states| ==> w.states[i] == if i < k then Completed else Pending)
          && AdmittedSoFar(r, world, k, w.admitted)
          && |w.handed| == k && |w.runs| == k && (k > 0 ==> w.current == k - 1) && (k == 0 ==> w.current == 0)
          && (forall i :: 0 <= i < k ==> world.leaves[i].ran == Ok(w.runs[i]) && world.leaves[i].assessed.None?)
        else
          w.current < |r.order| && forall i :: 0 <= i < w.current ==> w.states[i] == Completed)
  }

  lemma VisitKeeps(g: Catalog, selected: Option<Name>, r: Graph, allow: bool, world: World, k: nat, w: Walk)
    requires g.Valid() && Admitted(g, selected, r) && k < |r.order| == |world.leaves|
    requires Kept(g, r, world, k, w) && w.ended.None?
    ensures Kept(g, r, world, k + 1, Visit(r, allow, w, k, world.leaves[k]))
  {
    hide Catalog.Valid, Admitted, HandedRight, Feeding, Admit, Lookups, Inputs, EdgesOf, AdmittedSoFar;
    BoundRight(g, selected, r, world, k, w.admitted);
    if world.leaves[k].ran.Ok? {
      AdmitGrows(g, selected, r, world, k, w.admitted);
    }
    SkipGrows(r, world, k, w.admitted);
  }

  lemma SkipGrows(r: Graph, world: World, k: nat, admitted: map<Name, Binding>)
    requires k < |r.order| == |world.leaves| && AdmittedSoFar(r, world, k, admitted)
    ensures !Feeding(r.edges, r.order[k]) ==> AdmittedSoFar(r, world, k + 1, admitted)
  {
  }

  lemma {:induction false} WalkKeeps(g: Catalog, selected: Option<Name>, r: Graph, allow: bool, world: World, k: nat)
    requires g.Valid() && Admitted(g, selected, r) && k <= |r.order| == |world.leaves| && |r.order| > 0
    ensures Kept(g, r, world, k, Walked(r, allow, world, k))
  {
    hide Catalog.Valid, Admitted, HandedRight, Visit, AdmittedSoFar;
    if k == 0 {
      assert AdmittedSoFar(r, world, 0, map[]) by { NothingAdmitted(r, world); }
    } else {
      WalkKeeps(g, selected, r, allow, world, k - 1);
      var w := Walked(r, allow, world, k - 1);
      if w.ended.None? {
        VisitKeeps(g, selected, r, allow, world, k - 1, w);
      }
    }
  }

  lemma NothingAdmitted(r: Graph, world: World)
    requires |r.order| == |world.leaves|
    ensures AdmittedSoFar(r, world, 0, map[])
  {
  }

  // ------------------------------------------------------------------ the whole run

  /** For a graph the resolver admitted: no lookup fails, and every leaf gets its producers' own bytes. */
  lemma HandoffsNeverMissOrMix(g: Catalog, selected: Option<Name>, r: Graph, allow: bool, world: World)
    requires g.Valid() && Admitted(g, selected, r) && 0 < |r.order| == |world.leaves|
    ensures Run(r, allow, world).1.Some?
    ensures var walk := Run(r, allow, world).0;
      |walk.handed| <= |r.order| && forall i :: 0 <= i < |walk.handed| ==> HandedRight(g, r, world, i, walk.handed[i])
  {
    hide Catalog.Valid, Admitted, HandedRight, Walked, AdmittedSoFar;
    WalkKeeps(g, selected, r, allow, world, |r.order|);
  }

  /** Completed up to the node that stopped, and blocked after it. */
  predicate StoppedAt(states: seq<NodeState>, k: int) {
    && 0 <= k < |states| && states[k] == Stopped
    && (forall i :: 0 <= i < k ==> states[i] == Completed)
    && (forall i :: k < i < |states| ==> states[i] == Blocked)
  }

  predicate AllCompleted(states: seq<NodeState>) {
    forall i :: 0 <= i < |states| ==> states[i] == Completed
  }

  /** No fault of this world carries the outcome COMPLETE. */
  predicate Honest(world: World) {
    && Fails(world.opening) && Fails(world.closing)
    && forall i :: 0 <= i < |world.leaves| ==> LeafFails(world.leaves[i])
  }

  predicate LeafFails(leaf: Leaf) {
    && Fails(leaf.saved) && Fails(leaf.bound) && Fails(leaf.revalidated) && Fails(leaf.assessed) && Fails(leaf.recorded)
    && (leaf.ran.Err? ==> leaf.ran.error.outcome != Assess.Complete)
  }

  predicate Fails(fault: Option<Fault>) {
    fault.Some? ==> fault.value.outcome != Assess.Complete
  }

  predicate EndFails(w: Walk) {
    w.ended.Some? && w.ended.value.Caught? ==> w.ended.value.fault.outcome != Assess.Complete
  }

  lemma VisitFails(r: Graph, allow: bool, w: Walk, i: nat, leaf: Leaf)
    requires i < |r.order| == |w.states| && w.ended.None? && LeafFails(leaf)
    ensures EndFails(Visit(r, allow, w, i, leaf))
  {
  }

  lemma {:induction false} WalkFails(r: Graph, allow: bool, world: World, k: nat)
    requires k <= |r.order| == |world.leaves| && Honest(world)
    ensures EndFails(Walked(r, allow, world, k))
  {
    hide Visit, LeafFails;
    if k > 0 {
      WalkFails(r, allow, world, k - 1);
      var w := Walked(r, allow, world, k - 1);
      if w.ended.None? {
        VisitFails(r, allow, w, k - 1, world.leaves[k - 1]);
      }
    }
  }

  /**
   * Every exit leaves all nodes completed, or completed ones, one stopped and the rest blocked; a run
   * is complete exactly when its outcome is COMPLETE, and exactly when nothing was stopped.
   */
  lemma StatesTellTheOutcome(g: Catalog, selected: Option<Name>, r: Graph, allow: bool, world: World)
    requires g.Valid() && Admitted(g, selected, r) && 0 < |r.order| == |world.leaves| && Honest(world)
    ensures var (walk, result) := Run(r, allow, world);
      && result.Some?
      && (result.value.complete <==> result.value.outcome == Assess.Complete)
      && (result.value.complete <==> AllCompleted(walk.states))
      && (!result.value.complete <==> exists k :: StoppedAt(walk.states, k))
      && (result.value.complete <==> result.value.stop.None?)
  {
    hide Catalog.Valid, Admitted, HandedRight, Walked, AdmittedSoFar, Honest;
    WalkKeeps(g, selected, r, allow, world, |r.order|);
    WalkFails(r, allow, world, |r.order|);
    assert Fails(world.closing) by { HonestCloses(world); }
    var (walk, result) := Run(r, allow, world);
    if result.value.complete {
      assert walk.states[0] == Completed;
    } else {
      assert StoppedAt(walk.states, walk.current);
    }
  }

  lemma HonestCloses(world: World)
    requires Honest(world)
    ensures Fails(world.closing)
  {
  }

  /** A complete run has run every contract once, in order, each accepted by the record authority. */
  lemma CompleteRunsEverything(g: Catalog, selected: Option<Name>, r: Graph, allow: bool, world: World)
    requires g.Valid() && Admitted(g, selected, r) && 0 < |r.order| == |world.leaves|
    requires var result := Run(r, allow, world).1; result.Some? && result.value.complete
    ensures var walk := Run(r, allow, world).0;
      && |walk.runs| == |r.order| && |walk.handed| == |r.order|
      && (forall i :: 0 <= i < |r.order| ==>
            && world.leaves[i].ran == Ok(walk.runs[i]) && world.leaves[i].assessed.None?
            && HandedRight(g, r, world, i, walk.handed[i]))
      && (!allow ==> r.edges == [])
  {
    hide Catalog.Valid, HandedRight, Walked, AdmittedSoFar, Feeding, EdgesOf, RootsCollide, OutputsCollide,
        SourceCollides, Selects, Covers, Catalog.Topological;
    WalkKeeps(g, selected, r, allow, world, |r.order|);
    if !allow && r.edges != [] {
      var e := r.edges[0];
      assert e in r.edges;
      var c :| c in r.order && c.path == e.consumer;
      var i :| 0 <= i < |r.order| && r.order[i] == c;
      var m := OwnIndex(r.edges, e);
      var j := InputFacts(g, selected, r, i, m);
      NeverFed(r, allow, world, j, |r.order|);
    }
  }

  /** Only outputs of contracts that feed others are ever handed on. */
  lemma {:induction false} OnlyFeedersAdmitted(r: Graph, allow: bool, world: World, k: nat, name: Name)
    requires k <= |r.order| == |world.leaves| && name in Walked(r, allow, world, k).admitted
    ensures exists i :: 0 <= i < k && Feeding(r.edges, r.order[i]) && name in r.order[i].outputs
  {
    hide Feeding, Lookups, Inputs;
    var w := Walked(r, allow, world, k - 1);
    if name in w.admitted {
      OnlyFeedersAdmitted(r, allow, world, k - 1, name);
    } else {
      assert Feeding(r.edges, r.order[k - 1]) && name in r.order[k - 1].outputs;
    }
  }

  // ------------------------------------------------------------------ exactly when a run completes

  /** Nothing goes wrong with this leaf itself. */
  predicate LeafClean(leaf: Leaf) {
    && leaf.saved.None? && leaf.bound.None? && leaf.ran.Ok? && leaf.revalidated.None?
    && leaf.assessed.None? && leaf.recorded.None?
  }

  /** A contract that feeds others hands on only a result of limited assurance, where that is allowed. */
  predicate MayFeed(r: Graph, allow: bool, c: Contract, leaf: Leaf) {
    Feeding(r.edges, c) ==> allow && leaf.limited
  }

  /** What can stop a node, in the order it is met. */
  function LeafFault(r: Graph, allow: bool, c: Contract, leaf: Leaf): (fault: Option<Fault>)
    ensures fault.None? <==> LeafClean(leaf) && MayFeed(r, allow, c, leaf)
  {
    var raised := if leaf.ran.Err? then Some(leaf.ran.error) else None;
    var gate := if MayFeed(r, allow, c, leaf) then None else Some(UNPROVEN_INPUT);
    var faults := [leaf.saved, leaf.bound, raised, leaf.revalidated, leaf.assessed, gate, leaf.recorded];
    assert faults[0] == leaf.saved && faults[1] == leaf.bound && faults[2] == raised && faults[3] == leaf.revalidated;
    assert faults[4] == leaf.assessed && faults[5] == gate && faults[6] == leaf.recorded;
    FirstOf(faults)
  }

  /** The fault of a leaf is met where the walk meets it. */
  lemma LeafFaultMet(r: Graph, allow: bool, c: Contract, leaf: Leaf)
    ensures var fault := LeafFault(r, allow, c, leaf);
      fault == if leaf.saved.Some? then leaf.saved else if leaf.bound.Some? then leaf.bound
               else if leaf.ran.Err? then Some(leaf.ran.error) else if leaf.revalidated.Some? then leaf.revalidated
               else if leaf.assessed.Some? then leaf.assessed
               else if !MayFeed(r, allow, c, leaf) then Some(UNPROVEN_INPUT) else leaf.recorded
  {
    hide FirstOf, MayFeed;
    var raised := if leaf.ran.Err? then Some(leaf.ran.error) else None;
    var gate := if MayFeed(r, allow, c, leaf) then None else Some(UNPROVEN_INPUT);
    var faults := [leaf.saved, leaf.bound, raised, leaf.revalidated, leaf.assessed, gate, leaf.recorded];
    if leaf.saved.Some? {
      FirstIs(faults, 0);
    } else if leaf.bound.Some? {
      FirstIs(faults, 1);
    } else if raised.Some? {
      FirstIs(faults, 2);
    } else if leaf.revalidated.Some? {
      FirstIs(faults, 3);
    } else if leaf.assessed.Some? {
      FirstIs(faults, 4);
    } else if gate.Some? {
      FirstIs(faults, 5);
    } else if leaf.recorded.Some? {
      FirstIs(faults, 6);
    }
  }

  ghost predicate CleanUpTo(r: Graph, allow: bool, world: World, k: int)
    requires 0 <= k <= |r.order| == |world.leaves|
  {
    world.opening.None? && forall i :: 0 <= i < k ==> LeafFault(r, allow, r.order[i], world.leaves[i]).None?
  }

  /** The outputs of the first `k` contracts in order, each under its contract's run. */
  function Finals(r: Graph, world: World, k: nat): seq<Binding>
    requires k <= |r.order| == |world.leaves|
  {
    if k == 0 then []
    else
      var ran := world.leaves[k - 1].ran;
      Finals(r, world, k - 1) + if ran.Ok? then Bindings(r.order[k - 1], ran.value) else []
  }

  lemma VisitExactly(g: Catalog, selected: Option<Name>, r: Graph, allow: bool, world: World, k: nat, w: Walk)
    requires g.Valid() && Admitted(g, selected, r) && k < |r.order| == |world.leaves|
    requires Kept(g, r, world, k, w) && w.ended.None?
    ensures var n, fault := Visit(r, allow, w, k, world.leaves[k]), LeafFault(r, allow, r.order[k], world.leaves[k]);
      && n.ended == (if fault.Some? then Some(Caught(fault.value)) else None)
      && (fault.Some? ==> n.current == k)
      && (fault.None? ==> n.finalized == w.finalized + Bindings(r.order[k], world.leaves[k].ran.value))
  {
    hide Catalog.Valid, Admitted, HandedRight, Feeding, Admit, Lookups, Inputs, EdgesOf, AdmittedSoFar;
    BoundRight(g, selected, r, world, k, w.admitted);
    hide LeafFault;
    LeafFaultMet(r, allow, r.order[k], world.leaves[k]);
  }

  /** While nothing has gone wrong the walk goes on, and it ends with the first leaf's fault. */
  lemma {:induction false} WalkExactly(g: Catalog, selected: Option<Name>, r: Graph, allow: bool, world: World, k: nat)
    requires g.Valid() && Admitted(g, selected, r) && k <= |r.order| == |world.leaves| && |r.order| > 0
    ensures Walked(r, allow, world, k).ended.None? <==> CleanUpTo(r, allow, world, k)
    ensures CleanUpTo(r, allow, world, k) ==> Walked(r, allow, world, k).finalized == Finals(r, world, k)
  {
    hide Catalog.Valid, Admitted, Visit, LeafFault, Kept;
    if k > 0 {
      WalkExactly(g, selected, r, allow, world, k - 1);
      var w := Walked(r, allow, world, k - 1);
      if w.ended.None? {
        WalkKeeps(g, selected, r, allow, world, k - 1);
        VisitExactly(g, selected, r, allow, world, k - 1, w);
      }
    }
  }

  /**
   * A run is complete exactly when nothing goes wrong at either end or with any leaf, and every
   * contract that feeds others gave a result of limited assurance that the caller allows as input.
   * What it finalizes is then every contract's outputs, in order, each under that contract's run.
   */
  lemma CompletesExactly(g: Catalog, selected: Option<Name>, r: Graph, allow: bool, world: World)
    requires g.Valid() && Admitted(g, selected, r) && 0 < |r.order| == |world.leaves|
    ensures var (walk, result) := Run(r, allow, world);
      && (result == Some(Ended(Assess.Complete, true, None)) <==>
            && world.opening.None? && world.closing.None?
            && forall i :: 0 <= i < |r.order| ==>
                 LeafClean(world.leaves[i]) && MayFeed(r, allow, r.order[i], world.leaves[i]))
      && (result == Some(Ended(Assess.Complete, true, None)) ==> walk.finalized == Finals(r, world, |r.order|))
  {
    hide Catalog.Valid, Admitted, Walked, Kept, LeafClean, MayFeed;
    WalkExactly(g, selected, r, allow, world, |r.order|);
    WalkKeeps(g, selected, r, allow, world, |r.order|);
  }

  /** The first leaf with a fault of its own ends the run there, under that fault's outcome and code. */
  lemma FirstFaultStops(g: Catalog, selected: Option<Name>, r: Graph, allow: bool, world: World, k: nat)
    requires g.Valid() && Admitted(g, selected, r) && k < |r.order| == |world.leaves|
    requires CleanUpTo(r, allow, world, k) && LeafFault(r, allow, r.order[k], world.leaves[k]).Some?
    ensures var (walk, result) := Run(r, allow, world);
      var fault := LeafFault(r, allow, r.order[k], world.leaves[k]).value;
      && result == Some(Ended(fault.outcome, false, Some(fault.code)))
      && StoppedAt(walk.states, k)
  {
    hide Catalog.Valid, Admitted, Visit, LeafFault, CleanUpTo, HandedRight, AdmittedSoFar;
    WalkExactly(g, selected, r, allow, world, k);
    WalkKeeps(g, selected, r, allow, world, k);
    VisitExactly(g, selected, r, allow, world, k, Walked(r, allow, world, k));
    WalkKeeps(g, selected, r, allow, world, k + 1);
    WalkEnds(r, allow, world, k + 1, |r.order|);
  }

  /** A fault at either end stops the first node, or the last. */
  lemma EndFaultsStop(g: Catalog, selected: Option<Name>, r: Graph, allow: bool, world: World)
    requires g.Valid() && Admitted(g, selected, r) && 0 < |r.order| == |world.leaves|
    requires world.opening.Some? || (CleanUpTo(r, allow, world, |r.order|) && world.closing.Some?)
    ensures var (walk, result) := Run(r, allow, world);
      var fault := if world.opening.Some? then world.opening.value else world.closing.value;
      && result == Some(Ended(fault.outcome, false, Some(fault.code)))
      && StoppedAt(walk.states, if world.opening.Some? then 0 else |r.order| - 1)
  {
    hide Catalog.Valid, Admitted, Visit, LeafFault, HandedRight, AdmittedSoFar;
    WalkKeeps(g, selected, r, allow, world, |r.order|);
    if world.opening.Some? {
      WalkEnds(r, allow, world, 0, |r.order|);
    } else {
      WalkExactly(g, selected, r, allow, world, |r.order|);
    }
  }

  lemma {:induction false} OwnIndex(edges: seq<Edge>, e: Edge) returns (m: nat)
    requires e in edges
    ensures m < |EdgesOf(edges, e.consumer)| && EdgesOf(edges, e.consumer)[m] == e
  {
    var last := edges[|edges| - 1];
    if last == e {
      return |EdgesOf(edges[..|edges| - 1], e.consumer)|;
    }
    m := OwnIndex(edges[..|edges| - 1], e);
  }

  /** Without the exception for native assurance, a contract that feeds another never completes. */
  lemma {:induction false} NeverFed(r: Graph, allow: bool, world: World, j: nat, k: nat)
    requires j < k <= |r.order| == |world.leaves| && !allow && Feeding(r.edges, r.order[j])
    ensures Walked(r, allow, world, k).ended.Some?
  {
    hide Lookups, Admit, Inputs, Feeding;
    if j < k - 1 {
      NeverFed(r, allow, world, j, k - 1);
    }
  }
}
