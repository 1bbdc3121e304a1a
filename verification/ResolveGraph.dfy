/** Resolving a whole catalog: producers, targets, the visits, and the collision refusals. */
module ResolveGraph {
  import opened Prelude
  import opened Resolution
  import Order

  datatype Graph = Graph(targets: seq<Name>, catalog: seq<Contract>, order: seq<Contract>, edges: seq<Edge>)

  // ------------------------------------------------------------------ producers

  /** Every declared output with its contract, in catalog order. */
  function Declared(items: seq<Contract>): seq<(Name, Contract)> {
    if items == [] then []
    else
      var c := items[|items| - 1];
      Declared(items[..|items| - 1]) + Row(c, |c.outputs|)
  }

  function Row(c: Contract, k: nat): seq<(Name, Contract)>
    requires k <= |c.outputs|
  {
    seq(k, l requires 0 <= l < k => (c.outputs[l], c))
  }

  /** Two declared outputs are one file. */
  ghost predicate Ambiguous(declared: seq<(Name, Contract)>, fold: Name -> Name) {
    exists a, b :: 0 <= a < b < |declared| && fold(declared[a].0) == fold(declared[b].0)
  }

  function Index(declared: seq<(Name, Contract)>, fold: Name -> Name): map<Name, Contract> {
    if declared == [] then map[]
    else
      var init, (name, c) := declared[..|declared| - 1], declared[|declared| - 1];
      Index(init, fold)[fold(name) := c]
  }

  /** `producers`: each folded output once, or the refusal of a file declared twice. */
  method BuildProducers(items: seq<Contract>, fold: Name -> Name) returns (r: Option<map<Name, Contract>>)
    ensures r.None? <==> Ambiguous(Declared(items), fold)
    ensures r.Some? ==> r.value == Index(Declared(items), fold)
  {
    hide Index, Ambiguous, Declared;
    var producers: map<Name, Contract> := map[];
    NothingDeclared(fold);
    assert items[..0] == [];
    for i := 0 to |items|
      invariant !Ambiguous(Declared(items[..i]), fold)
      invariant producers == Index(Declared(items[..i]), fold)
    {
      var c := items[i];
      ghost var before := Declared(items[..i]);
      assert before + Row(c, 0) == before;
      for k := 0 to |c.outputs|
        invariant !Ambiguous(before + Row(c, k), fold)
        invariant producers == Index(before + Row(c, k), fold)
      {
        var key := fold(c.outputs[k]);
        assert before + Row(c, k + 1) == before + Row(c, k) + [(c.outputs[k], c)];
        IndexNext(before + Row(c, k), c.outputs[k], c, fold);
        if key in producers {
          DeclaredPrefix(items, i, k + 1);
          AmbiguousLonger(before + Row(c, k + 1), Declared(items), fold);
          return None;
        }
        producers := producers[key := c];
      }
      DeclaredNext(items, i);
    }
    assert items[..|items|] == items;
    return Some(producers);
  }

  lemma NothingDeclared(fold: Name -> Name)
    ensures Declared([]) == [] && Index([], fold) == map[] && !Ambiguous([], fold)
  {
  }

  lemma DeclaredNext(items: seq<Contract>, i: nat)
    requires i < |items|
    ensures Declared(items[..i + 1]) == Declared(items[..i]) + Row(items[i], |items[i].outputs|)
  {
    assert items[..i + 1][..i] == items[..i];
  }

  lemma AmbiguousLonger(some: seq<(Name, Contract)>, all: seq<(Name, Contract)>, fold: Name -> Name)
    requires some <= all && Ambiguous(some, fold)
    ensures Ambiguous(all, fold)
  {
  }

  lemma {:induction false} IndexFinds(declared: seq<(Name, Contract)>, key: Name, fold: Name -> Name)
    ensures key in Index(declared, fold) <==> exists a :: 0 <= a < |declared| && fold(declared[a].0) == key
    ensures key in Index(declared, fold) ==>
              (exists a :: 0 <= a < |declared| &&
                 fold(declared[a].0) == key && declared[a].1 == Index(declared, fold)[key])
  {
    if declared != [] {
      var init, last := declared[..|declared| - 1], declared[|declared| - 1];
      IndexFinds(init, key, fold);
      if fold(last.0) != key && key in Index(init, fold) {
        var a :| 0 <= a < |init| && fold(init[a].0) == key && init[a].1 == Index(init, fold)[key];
        assert declared[a] == init[a];
      }
    }
  }

  lemma IndexNext(done: seq<(Name, Contract)>, name: Name, c: Contract, fold: Name -> Name)
    requires !Ambiguous(done, fold)
    ensures Index(done + [(name, c)], fold) == Index(done, fold)[fold(name) := c]
    ensures fold(name) in Index(done, fold) <==> Ambiguous(done + [(name, c)], fold)
  {
    var more := done + [(name, c)];
    assert more[..|done|] == done;
    IndexFinds(done, fold(name), fold);
    if fold(name) in Index(done, fold) {
      var a :| 0 <= a < |done| && fold(done[a].0) == fold(name);
      assert more[a] == done[a] && more[|done|] == (name, c);
    }
  }

  lemma {:induction false} DeclaredPrefix(items: seq<Contract>, i: nat, k: nat)
    requires i < |items| && k <= |items[i].outputs|
    ensures Declared(items[..i]) + Row(items[i], k) <= Declared(items)
  {
    var last := |items| - 1;
    if i < last {
      DeclaredPrefix(items[..last], i, k);
      assert items[..last][..i] == items[..i];
    } else {
      assert Row(items[i], k) <= Row(items[i], |items[i].outputs|);
    }
  }

  lemma {:induction false} DeclaredMembers(items: seq<Contract>)
    ensures forall a :: 0 <= a < |Declared(items)| ==>
              Declared(items)[a].1 in items && Declared(items)[a].0 in Declared(items)[a].1.outputs
    ensures forall c, name :: c in items && name in c.outputs ==> (name, c) in Declared(items)
  {
    if items != [] {
      var init, c := items[..|items| - 1], items[|items| - 1];
      DeclaredMembers(init);
      assert items == init + [c];
      forall name | name in c.outputs ensures (name, c) in Declared(items) {
        var l :| 0 <= l < |c.outputs| && c.outputs[l] == name;
        assert Row(c, |c.outputs|)[l] == (name, c);
      }
    }
  }

  function CatalogOf(items: seq<Contract>, caller: set<Name>, fold: Name -> Name): Catalog {
    Catalog(items, Index(Declared(items), fold), caller, fold)
  }

  /** Without an ambiguous output the producer index is exactly the declarations. */
  lemma CatalogIsValid(items: seq<Contract>, caller: set<Name>, fold: Name -> Name)
    requires DistinctPaths(items) && !Ambiguous(Declared(items), fold)
    ensures CatalogOf(items, caller, fold).Valid()
  {
    var g, all := CatalogOf(items, caller, fold), Declared(items);
    hide Declared, Index;
    DeclaredMembers(items);
    forall c, name | c in items && name in c.outputs
      ensures fold(name) in g.producers && g.producers[fold(name)] == c
    {
      IndexFinds(all, fold(name), fold);
      var a :| 0 <= a < |all| && all[a] == (name, c);
      var b :| 0 <= b < |all| && fold(all[b].0) == fold(name) && all[b].1 == g.producers[fold(name)];
      assert a == b by { assert !(a < b) && !(b < a); }
    }
    forall key | key in g.producers ensures g.producers[key] in items && Outputs(g.producers[key], key, fold) {
      IndexFinds(all, key, fold);
      var a :| 0 <= a < |all| && fold(all[a].0) == key && all[a].1 == g.producers[key];
      assert all[a].0 in all[a].1.outputs;
    }
  }

  // ------------------------------------------------------------------ path overlaps

  /** `_overlap`. */
  predicate Overlap(left: Name, right: Name, fold: Name -> Name) {
    var l, r := fold(left), fold(right);
    l == r || r + [SLASH] <= l || l + [SLASH] <= r
  }

  /** Two paths overlap exactly when the folded components of one start the other's. */
  lemma OverlapIsPrefix(left: Name, right: Name, fold: Name -> Name)
    ensures var l, r := Split(fold(left), SLASH), Split(fold(right), SLASH);
            Overlap(left, right, fold) <==> l <= r || r <= l
  {
    ProperPrefix(fold(left), fold(right));
    ProperPrefix(fold(right), fold(left));
    var l, r := Split(fold(left), SLASH), Split(fold(right), SLASH);
    JoinSplit(fold(left), SLASH);
    JoinSplit(fold(right), SLASH);
    assert fold(left) == fold(right) <==> l == r;
    assert l <= r <==> l < r || l == r;
    assert r <= l <==> r < l || l == r;
  }

  lemma ProperPrefix(a: Name, b: Name)
    ensures a + [SLASH] <= b <==> Split(a, SLASH) < Split(b, SLASH)
  {
    hide Split, Join;
    var p, q := Split(a, SLASH), Split(b, SLASH);
    if a + [SLASH] <= b {
      var rest := b[|a| + 1..];
      assert b == a + [SLASH] + rest;
      SplitAt(a, SLASH, rest);
    }
    if p < q {
      JoinSplit(a, SLASH);
      JoinSplit(b, SLASH);
      var rest := q[|p|..];
      assert q == p + rest;
      JoinConcat(p, rest, SLASH);
    }
  }

  // ------------------------------------------------------------------ the resolved graph

  /** The contracts nobody else needs a file of. */
  ghost predicate Sink(g: Catalog, c: Contract) {
    c in g.items && forall d :: d in g.items ==> !g.Feeds(c, d)
  }

  /** `consumed`. */
  function Consumed(g: Catalog): set<Name> {
    set c, name | c in g.items && name in c.needs && g.Produced(name) :: g.Producer(name).path
  }

  function OutputsOf(order: seq<Contract>): seq<Name> {
    if order == [] then [] else OutputsOf(order[..|order| - 1]) + order[|order| - 1].outputs
  }

  /** The caller's files that the ordered contracts read. */
  function Roots(g: Catalog, order: seq<Contract>): set<Name> {
    set c, name | c in order && name in c.needs && !g.Produced(name) :: name
  }

  predicate RootsCollide(g: Catalog, order: seq<Contract>) {
    exists a, b :: a in Roots(g, order) && b in Roots(g, order) && a != b && g.fold(a) == g.fold(b)
  }

  predicate OutputsCollide(g: Catalog, order: seq<Contract>) {
    var outputs := OutputsOf(order);
    exists i, j :: 0 <= i < j < |outputs| && Overlap(outputs[i], outputs[j], g.fold)
  }

  predicate SourceCollides(g: Catalog, order: seq<Contract>) {
    exists output, name :: output in OutputsOf(order) &&
      name in Roots(g, order) + (set c | c in g.items :: c.path) && Overlap(output, name, g.fold)
  }

  /** The order and edges are a backwards closure of the targets. */
  ghost predicate IsClosure(g: Catalog, targets: seq<Name>, order: seq<Contract>, edges: seq<Edge>) {
    g.Topological(order) && Wired(g, order, edges) && Covers(g, targets, order)
  }

  /** Each ordered contract is supplied and has exactly its produced needs as edges; nothing else has any. */
  ghost predicate Wired(g: Catalog, order: seq<Contract>, edges: seq<Edge>) {
    && (forall c :: c in order ==> g.Supplied(c) && EdgesOf(edges, c.path) == g.Owed(c))
    && (forall e :: e in edges ==> exists c :: c in order && c.path == e.consumer)
  }

  /** The targets are ordered, and nothing is that no target reaches. */
  ghost predicate Covers(g: Catalog, targets: seq<Name>, order: seq<Contract>) {
    && (forall t :: t in targets ==> exists c :: c in order && c.path == t)
    && (forall c {:trigger Wanted(g, targets, order, c)} :: c in order ==> Wanted(g, targets, order, c))
  }

  /** Some ordered target needs `c`, directly or not. */
  ghost predicate Wanted(g: Catalog, targets: seq<Name>, order: seq<Contract>, c: Contract) {
    exists t :: t in order && t.path in targets && g.Reaches(t, c)
  }

  ghost predicate Admitted(g: Catalog, selected: Option<Name>, r: Graph) {
    && r.catalog == g.items
    && IsClosure(g, r.targets, r.order, r.edges)
    && !RootsCollide(g, r.order) && !OutputsCollide(g, r.order) && !SourceCollides(g, r.order)
    && Selects(g, selected, r)
  }

  /** The targets are the selection; without one, the sinks, and then the order is the whole catalog. */
  ghost predicate Selects(g: Catalog, selected: Option<Name>, r: Graph) {
    && (selected.Some? ==> r.targets == [selected.value])
    && (selected.None? ==> (forall c :: c in g.items ==> c in r.order && (c.path in r.targets <==> Sink(g, c))))
  }

  /** The contracts, caller inputs and selection have `r` as an admissible graph. */
  ghost predicate Resolvable(items: seq<Contract>, caller: set<Name>, fold: Name -> Name, selected: Option<Name>,
                             r: Graph) {
    !Ambiguous(Declared(items), fold) && Admitted(CatalogOf(items, caller, fold), selected, r)
  }

  ghost predicate Closes(g: Catalog, selected: Option<Name>, r: Graph) {
    Selects(g, selected, r) && IsClosure(g, r.targets, r.order, r.edges)
  }

  /** What each refusal of the resolver means. */
  ghost predicate Refused(g: Catalog, selected: Option<Name>, e: Error) {
    match e
    case MissingContract => selected.Some? && forall c :: c in g.items ==> c.path != selected.value
    case AmbiguousProducer => Ambiguous(Declared(g.items), g.fold)
    case Cycle => exists c :: c in g.items && (selected.Some? ==> c.path == selected.value) && Blames(g, c, e)
    case CaseDiffers => exists c :: c in g.items && (selected.Some? ==> c.path == selected.value) && Blames(g, c, e)
    case MissingInput => exists c :: c in g.items && (selected.Some? ==> c.path == selected.value) && Blames(g, c, e)
    case CollidingInputs => exists r: Graph :: Closes(g, selected, r) && RootsCollide(g, r.order)
    case OverlappingOutputs => exists r: Graph :: Closes(g, selected, r) && OutputsCollide(g, r.order)
    case OverlapsSource => exists r: Graph :: Closes(g, selected, r) && SourceCollides(g, r.order)
  }

  /** Some contract that feeds no other needs `c`, directly or not. */
  ghost predicate BehindSink(g: Catalog, c: Contract) {
    exists t :: Sink(g, t) && g.Reaches(t, c)
  }

  /** Some contract on a cycle needs `c`, directly or not. */
  ghost predicate BehindCycle(g: Catalog, c: Contract) {
    exists cycle :: g.IsCycle(cycle) && g.Reaches(cycle[0], c)
  }

  /** In every catalog a contract is needed, directly or not, by a sink or by a contract on a cycle. */
  lemma SinksReachAll(g: Catalog, c: Contract)
    requires c in g.items
    ensures BehindSink(g, c) || BehindCycle(g, c)
  {
    assert g.IsChain([c]);
    Climb(g, c, [c]);
  }

  /** From a chain that ends at `c`, up to whatever its first contract feeds. */
  lemma {:induction false} Climb(g: Catalog, c: Contract, chain: seq<Contract>)
    requires |chain| >= 1 && g.IsChain(chain) && chain[|chain| - 1] == c
    requires forall i, j :: 0 <= i < j < |chain| ==> chain[i] != chain[j]
    ensures BehindSink(g, c) || BehindCycle(g, c)
    decreases |g.items| - |chain|
  {
    hide Catalog.Feeds;
    var top := chain[0];
    assert g.Chained(chain, top, c);
    if d :| d in g.items && g.Feeds(top, d) {
      if d in chain {
        var k :| 0 <= k < |chain| && chain[k] == d;
        ClosesCycle(g, chain, k);
        assert chain[..k + 1][0] == top;
      } else {
        var longer := [d] + chain;
        Prepended(g, d, chain);
        DistinctFits(longer, g.items);
        Climb(g, c, longer);
      }
    } else {
      assert Sink(g, top);
    }
  }

  lemma ClosesCycle(g: Catalog, chain: seq<Contract>, k: nat)
    requires k < |chain| && g.IsChain(chain) && g.Feeds(chain[0], chain[k])
    ensures g.IsCycle(chain[..k + 1])
  {
    hide Catalog.Feeds;
    var cycle := chain[..k + 1];
    forall i | 0 <= i < |cycle| - 1 ensures g.Feeds(cycle[i + 1], cycle[i]) {
      assert g.Feeds(chain[i + 1], chain[i]);
    }
  }

  lemma Prepended(g: Catalog, d: Contract, chain: seq<Contract>)
    requires d in g.items && |chain| >= 1 && g.IsChain(chain) && g.Feeds(chain[0], d)
    ensures g.IsChain([d] + chain)
  {
    hide Catalog.Feeds;
    var longer := [d] + chain;
    forall i | 0 <= i < |longer| - 1 ensures g.Feeds(longer[i + 1], longer[i]) {
      if i > 0 { assert g.Feeds(chain[i - 1 + 1], chain[i - 1]); }
    }
  }

  /** An order of the whole catalog has nothing behind a cycle, and so everything behind a sink. */
  lemma OrderedIsBehindSinks(g: Catalog, order: seq<Contract>, c: Contract)
    requires g.Topological(order) && (forall d :: d in g.items ==> d in order) && c in order
    ensures BehindSink(g, c)
  {
    hide Catalog.Feeds;
    assert c in g.items;
    SinksReachAll(g, c);
    if cycle :| g.IsCycle(cycle) && g.Reaches(cycle[0], c) {
      ReachesSelf(g, cycle[0]);
      NoCycleInOrder(g, order, cycle[0], cycle);
    }
  }

  /** A contract that no sink needs does not disappear: the whole catalog then has no admissible graph. */
  lemma SinklessIsRefused(g: Catalog, c: Contract, r: Graph)
    requires c in g.items && !BehindSink(g, c)
    ensures !Admitted(g, None, r)
  {
    hide Wired, Covers, BehindSink;
    if Admitted(g, None, r) {
      OrderedIsBehindSinks(g, r.order, c);
    }
  }

  /** A closed order holds no cycle, nor anything that reaches one. */
  lemma NoCycleInOrder(g: Catalog, order: seq<Contract>, c: Contract, chain: seq<Contract>)
    requires g.Topological(order) && c in order && |chain| >= 1 && g.Reaches(c, chain[0])
    ensures !g.IsCycle(chain)
  {
    if g.IsCycle(chain) {
      var path :| g.Chained(path, c, chain[0]);
      var i :| 0 <= i < |order| && order[i] == c;
      var j := ChainDescends(g, order, path, i);
      var k := ChainDescends(g, order, chain, j);
    }
  }

  /** Along a chain, positions in the order only go down. */
  lemma {:induction false} ChainDescends(g: Catalog, order: seq<Contract>, chain: seq<Contract>, i: nat)
    returns (j: nat)
    requires g.Topological(order) && |chain| >= 1 && g.IsChain(chain) && i < |order| && order[i] == chain[0]
    ensures j <= i && order[j] == chain[|chain| - 1]
    decreases |chain|
  {
    if |chain| == 1 {
      return i;
    }
    assert g.Feeds(chain[0 + 1], chain[0]);
    var m :| 0 <= m < i && order[..i][m] == chain[1];
    var rest := chain[1..];
    forall k | 0 <= k < |rest| - 1 ensures g.Feeds(rest[k + 1], rest[k]) {
      assert g.Feeds(chain[k + 1 + 1], chain[k + 1]);
    }
    j := ChainDescends(g, order, rest, m);
  }

  /** `targets`: the selected contract, or every sink of the catalog. */
  method Targets(g: Catalog, selected: Option<Name>) returns (targets: seq<Contract>)
    requires g.Valid()
    requires selected.Some? ==> exists c :: c in g.items && c.path == selected.value
    ensures forall t :: t in targets <==> t in g.items && IsTarget(g, selected, Consumed(g), t)
    ensures selected.Some? ==> |targets| == 1
  {
    if selected.Some? {
      var c :| c in g.items && c.path == selected.value;
      forall d | d in g.items && d.path == selected.value ensures d == c {
        PathsName(g.items, c, d);
      }
      return [c];
    }
    targets := [];
    var consumed := Consumed(g);
    for i := 0 to |g.items|
      invariant forall t :: t in targets <==> t in g.items[..i] && IsTarget(g, selected, consumed, t)
    {
      if g.items[i].path !in consumed {
        targets := targets + [g.items[i]];
      }
    }
    assert g.items[..|g.items|] == g.items;
  }

  /** `_resolve_catalog`: the admitted closure, or a refusal that names a real fault. */
  method Resolve(items: seq<Contract>, caller: set<Name>, fold: Name -> Name, selected: Option<Name>)
    returns (r: Result<Graph, Error>)
    requires DistinctPaths(items)
    ensures r.Ok? ==> CatalogOf(items, caller, fold).Valid() && Resolvable(items, caller, fold, selected, r.value)
    ensures r.Err? ==> Refused(CatalogOf(items, caller, fold), selected, r.error)
  {
    hide Sound, Catalog.Valid, Blames, Catalog.Reaches, IsClosure, Declared, Index, Refused;
    var g := CatalogOf(items, caller, fold);
    if selected.Some? && forall c :: c in items ==> c.path != selected.value {
      SimpleRefusal(g, selected);
      return Err(MissingContract);
    }
    var producers := BuildProducers(items, fold);
    if producers.None? {
      SimpleRefusal(g, selected);
      return Err(AmbiguousProducer);
    }
    CatalogIsValid(items, caller, fold);
    var targets := Targets(g, selected);
    var visitor := new Visitor(g);
    for i := 0 to |targets|
      invariant visitor.Valid([]) && visitor.active == {} && visitor.catalog == g && fresh(visitor)
      invariant forall k :: 0 <= k < i ==> targets[k].path in visitor.visited
      invariant ReachedFrom(g, targets[..i], visitor.ordered)
    {
      ghost var before := visitor.ordered;
      var refused := visitor.Visit(targets[i], []);
      if refused.Some? {
        BlameIsRefusal(g, selected, targets[i], refused.value);
        return Err(refused.value);
      }
      ReachedMore(g, targets, i, before, visitor.ordered);
    }
    assert targets[..|targets|] == targets;
    if selected.None? {
      for i := 0 to |items|
        invariant visitor.Valid([]) && visitor.active == {} && visitor.catalog == g && fresh(visitor)
        invariant forall k :: 0 <= k < i ==> items[k].path in visitor.visited
      {
        var refused := visitor.Visit(items[i], []);
        if refused.Some? {
          BlameIsRefusal(g, selected, items[i], refused.value);
          return Err(refused.value);
        }
      }
    }
    var order := visitor.ordered;
    var graph := Graph(PathsOf(targets), items, order, visitor.edges);
    ClosureDone(g, selected, targets, visitor.visited, order, visitor.edges);
    if selected.Some? {
      assert graph.targets == [selected.value];
    }
    CollisionIsRefusal(g, selected, graph);
    if RootsCollide(g, order) {
      return Err(CollidingInputs);
    }
    if OutputsCollide(g, order) {
      return Err(OverlappingOutputs);
    }
    if SourceCollides(g, order) {
      return Err(OverlapsSource);
    }
    return Ok(graph);
  }

  function PathsOf(targets: seq<Contract>): (p: seq<Name>)
    ensures |p| == |targets|
  {
    seq(|targets|, i requires 0 <= i < |targets| => targets[i].path)
  }

  lemma SinkIsUnconsumed(g: Catalog, c: Contract)
    requires g.Valid() && c in g.items
    ensures Sink(g, c) <==> c.path !in Consumed(g)
  {
  }

  lemma TargetPaths(g: Catalog, targets: seq<Contract>, c: Contract)
    requires g.Valid() && c in g.items && forall t :: t in targets ==> t in g.items
    ensures c.path in PathsOf(targets) <==> c in targets
  {
    if c in targets {
      var i :| 0 <= i < |targets| && targets[i] == c;
      assert PathsOf(targets)[i] == c.path;
    }
    if c.path in PathsOf(targets) {
      var i :| 0 <= i < |targets| && PathsOf(targets)[i] == c.path;
      PathsName(g.items, c, targets[i]);
    }
  }

  lemma VisitedIsOrdered(g: Catalog, visited: set<Name>, order: seq<Contract>, edges: seq<Edge>)
    requires g.Valid() && Sound(g, [], {}, visited, order, edges)
    ensures forall c :: c in g.items && c.path in visited ==> c in order
    ensures g.Topological(order) && Wired(g, order, edges)
  {
  }

  lemma AllReached(g: Catalog, selected: Option<Name>, targets: seq<Contract>, order: seq<Contract>)
    requires g.Valid() && g.Topological(order)
    requires forall t :: t in targets <==> t in g.items && IsTarget(g, selected, Consumed(g), t)
    requires if selected.Some? then ReachedFrom(g, targets, order) else forall c :: c in g.items ==> c in order
    ensures ReachedFrom(g, targets, order)
  {
    if selected.None? {
      forall c | c in order ensures exists t :: t in targets && g.Reaches(t, c) {
        OrderedIsBehindSinks(g, order, c);
        var t :| Sink(g, t) && g.Reaches(t, c);
        SinkIsUnconsumed(g, t);
      }
    }
  }

  lemma ClosureDone(g: Catalog, selected: Option<Name>, targets: seq<Contract>, visited: set<Name>,
                    order: seq<Contract>, edges: seq<Edge>)
    requires g.Valid() && Sound(g, [], {}, visited, order, edges)
    requires forall t :: t in targets <==> t in g.items && IsTarget(g, selected, Consumed(g), t)
    requires forall t :: t in targets ==> t.path in visited
    requires if selected.Some? then ReachedFrom(g, targets, order) else forall c :: c in g.items ==> c.path in visited
    ensures IsClosure(g, PathsOf(targets), order, edges)
    ensures selected.None? ==>
              forall c :: c in g.items ==> c in order && (c.path in PathsOf(targets) <==> Sink(g, c))
  {
    hide Sound, Catalog.Valid, Catalog.Topological, Sink, Consumed, PathsOf, Wired, Covers, ReachedFrom;
    VisitedIsOrdered(g, visited, order, edges);
    AllReached(g, selected, targets, order);
    TargetsCover(g, targets, order);
    forall c | c in g.items ensures c.path in PathsOf(targets) <==> c in targets {
      TargetPaths(g, targets, c);
    }
    forall c | c in g.items ensures Sink(g, c) <==> c.path !in Consumed(g) {
      SinkIsUnconsumed(g, c);
    }
  }

  lemma TargetsCover(g: Catalog, targets: seq<Contract>, order: seq<Contract>)
    requires g.Valid() && (forall t :: t in targets ==> t in g.items && t in order) && ReachedFrom(g, targets, order)
    ensures Covers(g, PathsOf(targets), order)
  {
    hide Catalog.Reaches, PathsOf;
    forall c | c in order ensures Wanted(g, PathsOf(targets), order, c) {
      var t :| t in targets && g.Reaches(t, c);
      TargetPaths(g, targets, t);
    }
    forall p | p in PathsOf(targets) ensures exists c :: c in order && c.path == p {
      PathTarget(targets, p);
    }
  }

  lemma PathTarget(targets: seq<Contract>, p: Name)
    requires p in PathsOf(targets)
    ensures exists t :: t in targets && t.path == p
  {
  }

  lemma BlameIsRefusal(g: Catalog, selected: Option<Name>, c: Contract, e: Error)
    requires c in g.items && (selected.Some? ==> c.path == selected.value) && Blames(g, c, e)
    ensures Refused(g, selected, e)
  {
  }

  lemma CollisionIsRefusal(g: Catalog, selected: Option<Name>, r: Graph)
    requires Selects(g, selected, r) && IsClosure(g, r.targets, r.order, r.edges)
    ensures RootsCollide(g, r.order) ==> Refused(g, selected, CollidingInputs)
    ensures OutputsCollide(g, r.order) ==> Refused(g, selected, OverlappingOutputs)
    ensures SourceCollides(g, r.order) ==> Refused(g, selected, OverlapsSource)
  {
    hide RootsCollide, OutputsCollide, SourceCollides, IsClosure, Selects, Blames;
  }

  lemma SimpleRefusal(g: Catalog, selected: Option<Name>)
    ensures selected.Some? && (forall c :: c in g.items ==> c.path != selected.value) ==>
      Refused(g, selected, MissingContract)
    ensures Ambiguous(Declared(g.items), g.fold) ==> Refused(g, selected, AmbiguousProducer)
  {
  }

  predicate IsTarget(g: Catalog, selected: Option<Name>, consumed: set<Name>, c: Contract) {
    if selected.Some? then c.path == selected.value else c.path !in consumed
  }

  ghost predicate ReachedFrom(g: Catalog, targets: seq<Contract>, ordered: seq<Contract>) {
    forall x :: x in ordered ==> exists t :: t in targets && g.Reaches(t, x)
  }

  lemma ReachedMore(g: Catalog, targets: seq<Contract>, i: nat, before: seq<Contract>, after: seq<Contract>)
    requires i < |targets| && ReachedFrom(g, targets[..i], before)
    requires forall x :: x in after && x !in before ==> g.Reaches(targets[i], x)
    ensures ReachedFrom(g, targets[..i + 1], after)
  {
  }

  // ------------------------------------------------------------------ refusals are exact

  lemma ClosedUnderReach(g: Catalog, order: seq<Contract>, t: Contract, c: Contract)
    requires g.Topological(order) && t in order && g.Reaches(t, c)
    ensures c in order
  {
    var chain :| g.Chained(chain, t, c);
    var i :| 0 <= i < |order| && order[i] == t;
    var j := ChainDescends(g, order, chain, i);
  }

  /** Two closures of the same targets hold the same contracts. */
  lemma SameClosure(g: Catalog, r: Graph, s: Graph, c: Contract)
    requires g.Valid() && IsClosure(g, r.targets, r.order, r.edges) && IsClosure(g, s.targets, s.order, s.edges)
    requires forall t :: t in g.items && t.path in r.targets ==> t.path in s.targets
    requires c in r.order
    ensures c in s.order
  {
    hide Covers, Wired, Catalog.Topological, Catalog.Reaches, Catalog.Valid;
    var t := CoveredBy(g, r.targets, r.order, c);
    InItems(g, r.order, t);
    var u := TargetIn(g, s.targets, s.order, t.path);
    SameContract(g, t, u);
    ClosedUnderReach(g, s.order, t, c);
  }

  lemma CoveredBy(g: Catalog, targets: seq<Name>, order: seq<Contract>, c: Contract) returns (t: Contract)
    requires Covers(g, targets, order) && c in order
    ensures t in order && t.path in targets && g.Reaches(t, c)
  {
    assert Wanted(g, targets, order, c);
    t :| t in order && t.path in targets && g.Reaches(t, c);
  }

  lemma TargetIn(g: Catalog, targets: seq<Name>, order: seq<Contract>, path: Name) returns (t: Contract)
    requires Covers(g, targets, order) && g.Topological(order) && path in targets
    ensures t in order && t in g.items && t.path == path
  {
    hide Catalog.Reaches;
    t :| t in order && t.path == path;
  }

  lemma SameContract(g: Catalog, c: Contract, d: Contract)
    requires g.Valid() && c in g.items && d in g.items && c.path == d.path
    ensures c == d
  {
  }

  lemma InItems(g: Catalog, order: seq<Contract>, c: Contract)
    requires g.Topological(order) && c in order
    ensures c in g.items
  {
  }

  lemma {:induction false} OutputsAreDeclared(order: seq<Contract>)
    ensures |OutputsOf(order)| == |Declared(order)|
    ensures forall a :: 0 <= a < |Declared(order)| ==> OutputsOf(order)[a] == Declared(order)[a].0
  {
    if order != [] {
      OutputsAreDeclared(order[..|order| - 1]);
    }
  }

  /** The place in the order an output of the flattened list comes from. */
  lemma {:induction false} Locate(order: seq<Contract>, a: nat) returns (p: nat, k: nat)
    requires a < |Declared(order)|
    ensures p < |order| && k < |order[p].outputs| && a == |Declared(order[..p])| + k
    ensures Declared(order)[a] == (order[p].outputs[k], order[p])
  {
    var last := |order| - 1;
    var init := order[..last];
    if a < |Declared(init)| {
      p, k := Locate(init, a);
      assert init[..p] == order[..p];
    } else {
      p, k := last, a - |Declared(init)|;
    }
  }

  /** The index of an ordered contract's output in the flattened list. */
  function Position(order: seq<Contract>, p: nat, k: nat): nat
    requires p < |order|
  {
    |Declared(order[..p])| + k
  }

  lemma OutputAt(order: seq<Contract>, p: nat, k: nat)
    requires p < |order| && k < |order[p].outputs|
    ensures Position(order, p, k) < |OutputsOf(order)| && OutputsOf(order)[Position(order, p, k)] == order[p].outputs[k]
  {
    OutputsAreDeclared(order);
    DeclaredPrefix(order, p, k + 1);
    assert Declared(order)[Position(order, p, k)] == Row(order[p], k + 1)[k];
  }

  lemma PositionsDiffer(order: seq<Contract>, p: nat, k: nat, q: nat, l: nat)
    requires p < |order| && q < |order| && k < |order[p].outputs| && l < |order[q].outputs| && (p != q || k != l)
    ensures Position(order, p, k) != Position(order, q, l)
  {
    if p < q {
      assert order[..q][..p] == order[..p];
      DeclaredPrefix(order[..q], p, |order[p].outputs|);
    } else if q < p {
      assert order[..p][..q] == order[..q];
      DeclaredPrefix(order[..p], q, |order[q].outputs|);
    }
  }

  /** Whether outputs collide does not depend on the order of the contracts. */
  lemma OutputsCollideAnyOrder(g: Catalog, order: seq<Contract>, other: seq<Contract>)
    requires forall c :: c in order ==> c in other
    requires forall i, j :: 0 <= i < j < |order| ==> order[i] != order[j]
    requires OutputsCollide(g, order)
    ensures OutputsCollide(g, other)
  {
    OutputsAreDeclared(order);
    hide OutputsOf, Declared, Overlap, Position;
    var outputs := OutputsOf(order);
    var a, b :| 0 <= a < b < |outputs| && Overlap(outputs[a], outputs[b], g.fold);
    var p, k := Locate(order, a);
    var q, l := Locate(order, b);
    assert order[p] in other && order[q] in other;
    var p' :| 0 <= p' < |other| && other[p'] == order[p];
    var q' := p';
    if order[p] != order[q] {
      q' :| 0 <= q' < |other| && other[q'] == order[q];
    }
    OutputAt(other, p', k);
    OutputAt(other, q', l);
    PositionsDiffer(other, p', k, q', l);
    OverlapSymmetric(outputs[a], outputs[b], g.fold);
  }

  lemma OverlapSymmetric(a: Name, b: Name, fold: Name -> Name)
    ensures Overlap(a, b, fold) == Overlap(b, a, fold)
  {
  }

  lemma SameTargets(g: Catalog, selected: Option<Name>, r: Graph, s: Graph)
    requires Selects(g, selected, r) && Selects(g, selected, s)
    ensures forall t :: t in g.items ==> (t.path in r.targets <==> t.path in s.targets)
  {
  }

  /**
   * A refusal is exact: whatever the resolver refuses has no admissible graph at all. With `Resolve`'s
   * own contract, it succeeds exactly when one exists.
   */
  lemma RefusedHasNoGraph(items: seq<Contract>, caller: set<Name>, fold: Name -> Name, selected: Option<Name>,
                          e: Error, r: Graph)
    requires DistinctPaths(items) && Refused(CatalogOf(items, caller, fold), selected, e)
    ensures !Resolvable(items, caller, fold, selected, r)
  {
    hide Admitted, Declared, Index, Catalog.Valid, Ambiguous;
    var g := CatalogOf(items, caller, fold);
    if !Ambiguous(Declared(items), fold) {
      CatalogIsValid(items, caller, fold);
      NotAdmitted(g, selected, e, r);
    }
  }

  lemma NotAdmitted(g: Catalog, selected: Option<Name>, e: Error, r: Graph)
    requires g.Valid() && Refused(g, selected, e) && !e.AmbiguousProducer?
    ensures !Admitted(g, selected, r)
  {
    hide Catalog.Valid, Covers, Wired, Catalog.Topological, RootsCollide, OutputsCollide, SourceCollides, Blames, Sink;
    if Admitted(g, selected, r) {
      match e
      case MissingContract =>
        var c := TargetIn(g, r.targets, r.order, selected.value);
        assert false;
      case CollidingInputs => CollisionPersists(g, selected, e, r);
      case OverlappingOutputs => CollisionPersists(g, selected, e, r);
      case OverlapsSource => CollisionPersists(g, selected, e, r);
      case _ =>
        var c := BlamedIsOrdered(g, selected, e, r);
        BlamedIsNotOrdered(g, r.order, r.edges, c, e);
    }
  }

  lemma SelectedIsOrdered(g: Catalog, selected: Option<Name>, c: Contract, r: Graph)
    requires g.Valid() && Selects(g, selected, r) && IsClosure(g, r.targets, r.order, r.edges)
    requires c in g.items && (selected.Some? ==> c.path == selected.value)
    ensures c in r.order
  {
    hide Catalog.Valid, Covers, Sink, Wired;
    if selected.Some? {
      assert selected.value in r.targets;
      var d := TargetIn(g, r.targets, r.order, selected.value);
      SameContract(g, c, d);
    }
  }

  /** No closed order of supplied contracts holds a contract that a visit's refusal blames. */
  lemma BlamedIsNotOrdered(g: Catalog, order: seq<Contract>, edges: seq<Edge>, c: Contract, e: Error)
    requires g.Topological(order) && Wired(g, order, edges) && Blames(g, c, e)
    ensures c !in order
  {
    hide Catalog.Reaches, Catalog.Topological, EdgesOf, Catalog.Owed;
    if c in order {
      if e.Cycle? {
        var chain :| g.IsCycle(chain) && g.Reaches(c, chain[0]);
        NoCycleInOrder(g, order, c, chain);
      } else {
        var x, name :| g.Reaches(c, x) && name in x.needs &&
          if g.Produced(name) then name !in g.Producer(name).outputs else name !in g.caller;
        ClosedUnderReach(g, order, c, x);
      }
    }
  }

  lemma BlamedIsOrdered(g: Catalog, selected: Option<Name>, e: Error, r: Graph) returns (c: Contract)
    requires g.Valid() && Refused(g, selected, e) && (e.Cycle? || e.CaseDiffers? || e.MissingInput?)
    requires Selects(g, selected, r) && IsClosure(g, r.targets, r.order, r.edges)
    ensures c in r.order && Blames(g, c, e)
  {
    hide Catalog.Valid, Catalog.Topological, Wired, Covers, Selects, Blames;
    c :| c in g.items && (selected.Some? ==> c.path == selected.value) && Blames(g, c, e);
    SelectedIsOrdered(g, selected, c, r);
  }

  lemma CollisionPersists(g: Catalog, selected: Option<Name>, e: Error, r: Graph)
    requires g.Valid() && Refused(g, selected, e) && (e.CollidingInputs? || e.OverlappingOutputs? || e.OverlapsSource?)
    requires Selects(g, selected, r) && IsClosure(g, r.targets, r.order, r.edges)
    ensures RootsCollide(g, r.order) || OutputsCollide(g, r.order) || SourceCollides(g, r.order)
  {
    hide Catalog.Valid, Sink, Catalog.Reaches, Wired, Covers, RootsCollide, OutputsCollide, SourceCollides;
    var s: Graph :| Closes(g, selected, s) &&
      match e
      case CollidingInputs => RootsCollide(g, s.order)
      case OverlappingOutputs => OutputsCollide(g, s.order)
      case _ => SourceCollides(g, s.order);
    SameTargets(g, selected, r, s);
    forall c | c in s.order ensures c in r.order { SameClosure(g, s, r, c); }
    forall c | c in r.order ensures c in s.order { SameClosure(g, r, s, c); }
    if e.OverlappingOutputs? {
      OutputsCollideAnyOrder(g, s.order, r.order);
    } else {
      OtherCollisionsAnyOrder(g, s.order, r.order);
    }
  }

  /** Nor does the collision of inputs, or of outputs with what is already there. */
  lemma OtherCollisionsAnyOrder(g: Catalog, order: seq<Contract>, other: seq<Contract>)
    requires forall c :: c in order <==> c in other
    ensures RootsCollide(g, order) == RootsCollide(g, other)
    ensures SourceCollides(g, order) == SourceCollides(g, other)
  {
    hide OutputsOf, Overlap;
    assert Roots(g, order) == Roots(g, other);
    OutputNames(order, other);
    OutputNames(other, order);
  }

  lemma OutputNames(order: seq<Contract>, other: seq<Contract>)
    requires forall c :: c in order ==> c in other
    ensures forall name :: name in OutputsOf(order) ==> name in OutputsOf(other)
  {
    forall name | name in OutputsOf(order) ensures name in OutputsOf(other) {
      OutputsAreDeclared(order);
      OutputsAreDeclared(other);
      var a :| 0 <= a < |OutputsOf(order)| && OutputsOf(order)[a] == name;
      var p, k := Locate(order, a);
      assert order[p] in other;
      var p' :| 0 <= p' < |other| && other[p'] == order[p];
      OutputAt(other, p', k);
    }
  }
}
