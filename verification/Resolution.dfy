/** Inferring a factory's contract graph from the files its contracts need and produce. */
module Resolution {
  import opened Prelude
  import Order

  /** A relative path, as code points. */
  type Name = seq<int>

  const SLASH := 47

  /** A contract, named by its path; its needs are distinct by admission. */
  datatype Contract = Contract(path: Name, needs: set<Name>, outputs: seq<Name>)

  datatype Edge = Edge(consumer: Name, name: Name, producer: Name)

  datatype Error =
    | MissingContract
    | AmbiguousProducer
    | Cycle
    | CaseDiffers
    | MissingInput
    | CollidingInputs
    | OverlappingOutputs
    | OverlapsSource

  /** The contracts of a source tree, who produces each folded file name, and the caller's files. */
  datatype Catalog = Catalog(
    items: seq<Contract>, producers: map<Name, Contract>, caller: set<Name>, fold: Name -> Name) {

    /** Paths are distinct, and `producers` maps exactly the folded outputs to their one contract. */
    ghost predicate Valid() {
      && DistinctPaths(items)
      && (forall c, name :: c in items && name in c.outputs ==> fold(name) in producers && producers[fold(name)] == c)
      && (forall key :: key in producers ==> producers[key] in items && Outputs(producers[key], key, fold))
    }

    predicate Produced(name: Name) { fold(name) in producers }

    function Producer(name: Name): Contract
      requires Produced(name)
    {
      producers[fold(name)]
    }

    /** `p` produces a file that `c` needs. */
    ghost predicate Feeds(p: Contract, c: Contract) {
      exists name :: name in c.needs && Produced(name) && Producer(name) == p
    }

    /** Each need of `c` is the exact spelling of a produced file, or a file the caller has. */
    predicate Supplied(c: Contract) {
      forall name :: name in c.needs ==> if Produced(name) then name in Producer(name).outputs else name in caller
    }

    /** Each contract of `chain` is fed by the one after it. */
    ghost predicate IsChain(chain: seq<Contract>) {
      && (forall i :: 0 <= i < |chain| ==> chain[i] in items)
      && (forall i :: 0 <= i < |chain| - 1 ==> Feeds(chain[i + 1], chain[i]))
    }

    /** A chain whose first contract feeds its last: contracts that wait for each other. */
    ghost predicate IsCycle(chain: seq<Contract>) {
      |chain| >= 1 && IsChain(chain) && Feeds(chain[0], chain[|chain| - 1])
    }

    ghost predicate Chained(chain: seq<Contract>, from: Contract, to: Contract) {
      |chain| >= 1 && IsChain(chain) && chain[0] == from && chain[|chain| - 1] == to
    }

    /** `to` must run for `from` to run. */
    ghost predicate Reaches(from: Contract, to: Contract) {
      exists chain :: Chained(chain, from, to)
    }

    /** Every contract is in the list after all the producers of its needs, and once. */
    ghost predicate Topological(order: seq<Contract>) {
      && (forall i :: 0 <= i < |order| ==> order[i] in items)
      && (forall i, j :: 0 <= i < j < |order| ==> order[i] != order[j])
      && (forall i, p :: 0 <= i < |order| && Feeds(p, order[i]) ==> p in order[..i])
    }

    /** The edges a contract owes: its produced needs in sorted order. */
    function Owed(c: Contract): seq<Edge> {
      OwedFor(c, Order.Sorted(c.needs))
    }

    function OwedFor(c: Contract, names: seq<Name>): seq<Edge> {
      if names == [] then []
      else
        var init, name := OwedFor(c, names[..|names| - 1]), names[|names| - 1];
        if Produced(name) then init + [Edge(c.path, name, Producer(name).path)] else init
    }
  }

  predicate DistinctPaths(items: seq<Contract>) {
    forall i, j :: 0 <= i < j < |items| ==> items[i].path != items[j].path
  }

  predicate Outputs(c: Contract, key: Name, fold: Name -> Name) {
    exists name :: name in c.outputs && fold(name) == key
  }

  /** The edges of one consumer, in the order they were added (`Graph.inputs` reads their names). */
  function EdgesOf(edges: seq<Edge>, consumer: Name): seq<Edge> {
    if edges == [] then []
    else
      var init, e := EdgesOf(edges[..|edges| - 1], consumer), edges[|edges| - 1];
      if e.consumer == consumer then init + [e] else init
  }

  lemma PathsName(items: seq<Contract>, c: Contract, d: Contract)
    requires DistinctPaths(items) && c in items && d in items && c.path == d.path
    ensures c == d
  {
  }

  lemma OtherPath(items: seq<Contract>, c: Contract, d: Contract)
    requires DistinctPaths(items) && c in items && d in items && c != d
    ensures c.path != d.path
  {
  }

  // ------------------------------------------------------------------ the depth-first visit

  class Visitor {
    const catalog: Catalog
    var active: set<Name>
    var visited: set<Name>
    var ordered: seq<Contract>
    var edges: seq<Edge>

    constructor (catalog: Catalog)
      requires catalog.Valid()
      ensures this.catalog == catalog && Valid([]) && active == {} && ordered == []
    {
      this.catalog := catalog;
      active, visited, ordered, edges := {}, {}, [], [];
      new;
      assert catalog.IsChain([]);
    }

    /** `stack` lists the active contracts, each fed by the next. */
    ghost predicate Valid(stack: seq<Contract>)
      reads this
    {
      catalog.Valid() && Sound(catalog, stack, active, visited, ordered, edges)
    }

    /** `visit`: on success `c` and all it needs are in the order, each after its producers. */
    method Visit(c: Contract, ghost stack: seq<Contract>) returns (refused: Option<Error>)
      requires Valid(stack) && c in catalog.items
      requires stack != [] ==> catalog.Feeds(c, stack[|stack| - 1])
      modifies this
      ensures refused.None? ==>
                && Valid(stack) && c.path in visited && active == old(active) && old(visited) <= visited
                && Grew(catalog, c, active, old(ordered), old(edges), ordered, edges)
      ensures refused.Some? ==> Blames(catalog, c, refused.value)
      decreases |catalog.items| - |stack|
    {
      hide Sound, Grew, Blames, Catalog.Valid, Catalog.Feeds, EdgesOf, Catalog.OwedFor, Order.Sorted, Order.Less;
      if c.path in active {
        CycleFound(catalog, c, stack, active, visited, ordered, edges);
        return Some(Cycle);
      }
      if c.path in visited {
        GrewNothing(catalog, c, active, ordered, edges);
        return None;
      }
      ghost var inner := stack + [c];
      EnterSound(catalog, c, stack, active, visited, ordered, edges);
      GrewNothing(catalog, c, active, ordered, edges);
      active := active + {c.path};
      var names := Order.Sorted(c.needs);
      OwedNothing(catalog, c);
      assert names[..0] == [];
      for i := 0 to |names|
        invariant Valid(inner) && active == old(active) + {c.path}
        invariant Grew(catalog, c, old(active), old(ordered), old(edges), ordered, edges)
        invariant EdgesOf(edges, c.path) == catalog.OwedFor(c, names[..i])
        invariant forall k :: 0 <= k < i ==> Met(catalog, names[k], visited)
      {
        var name := names[i];
        OwedNext(catalog, c, names, i);
        if catalog.Produced(name) {
          var producer := catalog.Producer(name);
          FeedsBy(catalog, c, name);
          if name !in producer.outputs {
            BlameSelf(catalog, c, name, CaseDiffers);
            return Some(CaseDiffers);
          }
          ghost var before, beforeEdges := ordered, edges;
          var inside := Visit(producer, inner);
          if inside.Some? {
            BlameProducer(catalog, c, producer, inside.value);
            return inside;
          }
          GrewMore(catalog, c, producer, old(active), old(ordered), old(edges), before, beforeEdges, ordered, edges);
          EdgeSound(catalog, c, name, inner, active, visited, ordered, edges);
          GrewEdge(catalog, c, name, old(active), old(ordered), old(edges), ordered, edges);
          edges := edges + [Edge(c.path, name, producer.path)];
        } else if name !in catalog.caller {
          BlameSelf(catalog, c, name, MissingInput);
          return Some(MissingInput);
        }
      }
      assert names[..|names|] == names;
      LeaveSound(catalog, c, stack, active, visited, ordered, edges);
      GrewSelf(catalog, c, old(active), old(ordered), old(edges), ordered, edges);
      active := active - {c.path};
      visited := visited + {c.path};
      ordered := ordered + [c];
      VisitedGrows(catalog, c, stack, active, old(visited), old(ordered), old(edges), visited, ordered, edges);
      refused := None;
    }
  }

  /** What the visitor's fields keep while the contracts of `stack` are active. */
  ghost predicate Sound(g: Catalog, stack: seq<Contract>, active: set<Name>, visited: set<Name>,
                        ordered: seq<Contract>, edges: seq<Edge>)
  {
    && g.IsChain(stack)
    && (forall i, j :: 0 <= i < j < |stack| ==> stack[i] != stack[j])
    && active == (set c | c in stack :: c.path)
    && visited == (set c | c in ordered :: c.path)
    && active !! visited
    && g.Topological(ordered)
    && (forall c :: c in ordered ==> g.Supplied(c) && EdgesOf(edges, c.path) == g.Owed(c))
    && (forall e :: e in edges ==> e.consumer in active + visited)
  }

  /** What a visit to `c` adds: contracts `c` reaches, and no edge of a contract active before. */
  ghost predicate Grew(g: Catalog, c: Contract, active: set<Name>, ordered: seq<Contract>, edges: seq<Edge>,
                       ordered': seq<Contract>, edges': seq<Edge>)
  {
    && ordered <= ordered'
    && (forall x :: x in ordered' && x !in ordered ==> g.Reaches(c, x))
    && (forall a :: a in active ==> EdgesOf(edges', a) == EdgesOf(edges, a))
  }

  /** A need is met once its producer is visited under its exact name, or the caller has the file. */
  ghost predicate Met(g: Catalog, name: Name, visited: set<Name>) {
    if g.Produced(name) then name in g.Producer(name).outputs && g.Producer(name).path in visited
    else name in g.caller
  }

  lemma FeedsBy(g: Catalog, c: Contract, name: Name)
    requires g.Valid() && name in c.needs && g.Produced(name)
    ensures g.Feeds(g.Producer(name), c) && g.Producer(name) in g.items
  {
  }

  lemma OwedNext(g: Catalog, c: Contract, names: seq<Name>, i: nat)
    requires i < |names|
    ensures g.OwedFor(c, names[..i + 1]) == g.OwedFor(c, names[..i]) +
            if g.Produced(names[i]) then [Edge(c.path, names[i], g.Producer(names[i]).path)] else []
  {
    assert names[..i + 1][..i] == names[..i];
  }

  lemma OwedNothing(g: Catalog, c: Contract)
    ensures g.OwedFor(c, []) == []
  {
  }

  lemma GrewNothing(g: Catalog, c: Contract, active: set<Name>, ordered: seq<Contract>, edges: seq<Edge>)
    ensures Grew(g, c, active, ordered, edges, ordered, edges)
  {
  }

  lemma GrewMore(g: Catalog, c: Contract, p: Contract, active: set<Name>, ordered: seq<Contract>, edges: seq<Edge>,
                 mid: seq<Contract>, midEdges: seq<Edge>, ordered': seq<Contract>, edges': seq<Edge>)
    requires c in g.items && g.Feeds(p, c)
    requires Grew(g, c, active, ordered, edges, mid, midEdges)
    requires Grew(g, p, active + {c.path}, mid, midEdges, ordered', edges')
    ensures Grew(g, c, active, ordered, edges, ordered', edges')
    ensures EdgesOf(edges', c.path) == EdgesOf(midEdges, c.path)
  {
    forall x | x in ordered' && x !in ordered ensures g.Reaches(c, x) {
      if x !in mid { ReachesThrough(g, c, p, x); }
    }
  }

  lemma VisitedGrows(g: Catalog, c: Contract, stack: seq<Contract>, active: set<Name>, visited: set<Name>,
                     ordered: seq<Contract>, edges: seq<Edge>, visited': set<Name>, ordered': seq<Contract>,
                     edges': seq<Edge>)
    requires Sound(g, stack, active, visited, ordered, edges)
    requires Sound(g, stack, active, visited', ordered', edges')
    requires Grew(g, c, active, ordered, edges, ordered', edges')
    ensures visited <= visited'
  {
  }

  lemma GrewEdge(g: Catalog, c: Contract, name: Name, active: set<Name>, ordered: seq<Contract>, edges: seq<Edge>,
                 ordered': seq<Contract>, edges': seq<Edge>)
    requires g.Produced(name) && c.path !in active
    requires Grew(g, c, active, ordered, edges, ordered', edges')
    ensures var e := Edge(c.path, name, g.Producer(name).path);
            Grew(g, c, active, ordered, edges, ordered', edges' + [e])
            && EdgesOf(edges' + [e], c.path) == EdgesOf(edges', c.path) + [e]
  {
  }

  lemma GrewSelf(g: Catalog, c: Contract, active: set<Name>, ordered: seq<Contract>, edges: seq<Edge>,
                 ordered': seq<Contract>, edges': seq<Edge>)
    requires c in g.items && Grew(g, c, active, ordered, edges, ordered', edges')
    ensures Grew(g, c, active, ordered, edges, ordered' + [c], edges')
  {
    ReachesSelf(g, c);
  }

  lemma EnterSound(g: Catalog, c: Contract, stack: seq<Contract>, active: set<Name>, visited: set<Name>,
                   ordered: seq<Contract>, edges: seq<Edge>)
    requires g.Valid() && Sound(g, stack, active, visited, ordered, edges)
    requires c in g.items && c.path !in active && c.path !in visited
    requires stack != [] ==> g.Feeds(c, stack[|stack| - 1])
    ensures |stack| < |g.items| && Sound(g, stack + [c], active + {c.path}, visited, ordered, edges)
    ensures EdgesOf(edges, c.path) == []
  {
    StackFits(g, c, stack);
    NoEdges(edges, c.path);
  }

  lemma EdgeSound(g: Catalog, c: Contract, name: Name, stack: seq<Contract>, active: set<Name>, visited: set<Name>,
                  ordered: seq<Contract>, edges: seq<Edge>)
    requires Sound(g, stack, active, visited, ordered, edges)
    requires c.path in active && g.Produced(name)
    ensures Sound(g, stack, active, visited, ordered, edges + [Edge(c.path, name, g.Producer(name).path)])
  {
  }

  lemma LeaveSound(g: Catalog, c: Contract, stack: seq<Contract>, active: set<Name>, visited: set<Name>,
                   ordered: seq<Contract>, edges: seq<Edge>)
    requires g.Valid() && Sound(g, stack + [c], active, visited, ordered, edges)
    requires EdgesOf(edges, c.path) == g.Owed(c)
    requires forall name :: name in Order.Sorted(c.needs) ==> Met(g, name, visited)
    ensures Sound(g, stack, active - {c.path}, visited + {c.path}, ordered + [c], edges)
  {
    var inner, longer := stack + [c], ordered + [c];
    assert inner[|stack|] == c && c in g.items;
    forall d | d in stack ensures d in g.items && d.path != c.path && d.path in active {
      var i :| 0 <= i < |stack| && stack[i] == d;
      assert inner[i] == d && inner[i] != inner[|stack|];
      OtherPath(g.items, c, d);
    }
    forall i | 0 <= i < |stack| - 1 ensures g.Feeds(stack[i + 1], stack[i]) {
      assert g.Feeds(inner[i + 1], inner[i]);
    }
    forall i, j | 0 <= i < j < |stack| ensures stack[i] != stack[j] {
      assert inner[i] != inner[j];
    }
    assert c.path in active && c !in ordered;
    forall i, p | 0 <= i < |longer| && g.Feeds(p, longer[i]) ensures p in longer[..i] {
      if i < |ordered| {
        assert longer[..i] == ordered[..i];
      } else {
        var name :| name in c.needs && g.Produced(name) && g.Producer(name) == p;
        assert Met(g, name, visited);
        var d :| d in ordered && d.path == p.path;
        PathsName(g.items, p, d);
        assert longer[..i] == ordered;
      }
    }
  }

  /** What a refusal of a visit to `c` points at: a real cycle or a bad need that `c` reaches. */
  ghost predicate Blames(g: Catalog, c: Contract, e: Error) {
    match e
    case Cycle => exists chain :: g.IsCycle(chain) && g.Reaches(c, chain[0])
    case CaseDiffers =>
      exists x, name :: g.Reaches(c, x) && name in x.needs && g.Produced(name) && name !in g.Producer(name).outputs
    case MissingInput =>
      exists x, name :: g.Reaches(c, x) && name in x.needs && !g.Produced(name) && name !in g.caller
    case _ => false
  }

  // ------------------------------------------------------------------ lemmas about chains

  lemma ReachesSelf(g: Catalog, c: Contract)
    requires c in g.items
    ensures g.Reaches(c, c)
  {
    assert g.Chained([c], c, c);
  }

  lemma ReachesThrough(g: Catalog, c: Contract, p: Contract, x: Contract)
    requires c in g.items && g.Feeds(p, c) && g.Reaches(p, x)
    ensures g.Reaches(c, x)
  {
    var chain :| g.Chained(chain, p, x);
    var longer := [c] + chain;
    forall i | 0 <= i < |longer| - 1 ensures g.Feeds(longer[i + 1], longer[i]) {
      if i > 0 { assert g.Feeds(chain[i - 1 + 1], chain[i - 1]); }
    }
    assert g.Chained(longer, c, x);
  }

  lemma CycleFound(g: Catalog, c: Contract, stack: seq<Contract>, active: set<Name>, visited: set<Name>,
                   ordered: seq<Contract>, edges: seq<Edge>)
    requires g.Valid() && Sound(g, stack, active, visited, ordered, edges)
    requires c in g.items && c.path in active
    requires stack != [] ==> g.Feeds(c, stack[|stack| - 1])
    ensures Blames(g, c, Cycle)
  {
    var k :| 0 <= k < |stack| && stack[k].path == c.path;
    PathsName(g.items, c, stack[k]);
    var chain := stack[k..];
    forall i | 0 <= i < |chain| - 1 ensures g.Feeds(chain[i + 1], chain[i]) {
      assert g.Feeds(stack[k + i + 1], stack[k + i]);
    }
    assert g.IsCycle(chain);
    ReachesSelf(g, c);
  }

  lemma BlameSelf(g: Catalog, c: Contract, name: Name, e: Error)
    requires c in g.items && name in c.needs
    requires if e.CaseDiffers? then g.Produced(name) && name !in g.Producer(name).outputs
             else e.MissingInput? && !g.Produced(name) && name !in g.caller
    ensures Blames(g, c, e)
  {
    ReachesSelf(g, c);
  }

  lemma BlameProducer(g: Catalog, c: Contract, p: Contract, e: Error)
    requires c in g.items && g.Feeds(p, c) && Blames(g, p, e)
    ensures Blames(g, c, e)
  {
    forall x | g.Reaches(p, x) ensures g.Reaches(c, x) {
      ReachesThrough(g, c, p, x);
    }
  }

  /** An inactive contract extends the stack within the catalog. */
  lemma StackFits(g: Catalog, c: Contract, stack: seq<Contract>)
    requires g.Valid() && g.IsChain(stack) && c in g.items
    requires stack != [] ==> g.Feeds(c, stack[|stack| - 1])
    requires forall i, j :: 0 <= i < j < |stack| ==> stack[i] != stack[j]
    requires forall d :: d in stack ==> d.path != c.path
    ensures |stack| < |g.items| && g.IsChain(stack + [c])
  {
    var inner := stack + [c];
    forall i | 0 <= i < |inner| - 1 ensures g.Feeds(inner[i + 1], inner[i]) {
      if i < |stack| - 1 { assert g.Feeds(stack[i + 1], stack[i]); }
    }
    DistinctFits(inner, g.items);
  }

  lemma {:induction false} DistinctFits<T>(a: seq<T>, b: seq<T>)
    requires forall i, j :: 0 <= i < j < |a| ==> a[i] != a[j]
    requires forall i :: 0 <= i < |a| ==> a[i] in b
    ensures |a| <= |b|
  {
    if a != [] {
      var k :| 0 <= k < |b| && b[k] == a[0];
      var rest := b[..k] + b[k + 1..];
      forall i | 0 <= i < |a[1..]| ensures a[1..][i] in rest {
        var j :| 0 <= j < |b| && b[j] == a[i + 1];
        assert rest[if j < k then j else j - 1] == a[i + 1];
      }
      DistinctFits(a[1..], rest);
    }
  }

  lemma {:induction false} NoEdges(edges: seq<Edge>, consumer: Name)
    requires forall e :: e in edges ==> e.consumer != consumer
    ensures EdgesOf(edges, consumer) == []
  {
    if edges != [] {
      assert edges[|edges| - 1] in edges;
      NoEdges(edges[..|edges| - 1], consumer);
    }
  }
}
