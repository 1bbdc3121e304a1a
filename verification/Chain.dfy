/** Running a resolved graph (`run_chain`): sequential leaves, handoffs, node states and the outcome. */
module Chain {
  import opened Prelude
  import Assess
  import opened Resolution
  import opened ResolveGraph

  datatype NodeState = Pending | Running | Completed | Stopped | Blocked

  /** A raised error that `run_chain` catches; no refusal of the system carries COMPLETE. */
  datatype Fault = Fault(code: string, outcome: Assess.Outcome)

  /** A retained output: its name, and the run whose finalized record holds it. */
  datatype Binding = Binding(name: Name, run: string)

  /** What one node meets, in the order it meets it. */
  datatype Leaf = Leaf(
    saved: Option<Fault>,            // writing that it is running
    bound: Option<Fault>,            // the caller's own inputs changed
    ran: Result<string, Fault>,      // the run, or what it raised
    revalidated: Option<Fault>,      // the catalog or a plan changed
    assessed: Option<Fault>,         // the record authority refuses the result
    limited: bool,                   // its assurance is the limited, native one
    recorded: Option<Fault>)         // writing that it is completed

  datatype World = World(opening: Option<Fault>, leaves: seq<Leaf>, closing: Option<Fault>)

  /** How the walk has ended early: an error that is caught, or a lookup that failed and is not. */
  datatype End = Caught(fault: Fault) | KeyError

  datatype Walk = Walk(
    states: seq<NodeState>,
    runs: seq<string>,
    admitted: map<Name, Binding>,
    finalized: seq<Binding>,
    handed: seq<seq<Binding>>,   // the input bindings each executed leaf was given
    current: nat,
    ended: Option<End>)

  /** `Graph.inputs` */
  function Inputs(edges: seq<Edge>, c: Contract): (names: seq<Name>)
    ensures |names| == |EdgesOf(edges, c.path)|
    ensures forall m :: 0 <= m < |names| ==> names[m] == EdgesOf(edges, c.path)[m].name
  {
    var own := EdgesOf(edges, c.path);
    seq(|own|, m requires 0 <= m < |own| => own[m].name)
  }

  /** `tuple(admitted[name] for name in ...)`, None at a name that has not been admitted. */
  function Lookups(names: seq<Name>, admitted: map<Name, Binding>): Option<seq<Binding>> {
    if names == [] then Some([])
    else
      match Lookups(names[..|names| - 1], admitted)
      case None => None
      case Some(found) =>
        if names[|names| - 1] in admitted then Some(found + [admitted[names[|names| - 1]]]) else None
  }

  predicate Feeding(edges: seq<Edge>, c: Contract) {
    exists e :: e in edges && e.producer == c.path
  }

  function Bindings(c: Contract, run: string): (bindings: seq<Binding>)
    ensures |bindings| == |c.outputs|
    ensures forall m :: 0 <= m < |bindings| ==> bindings[m] == Binding(c.outputs[m], run)
  {
    seq(|c.outputs|, m requires 0 <= m < |c.outputs| => Binding(c.outputs[m], run))
  }

  /** `admitted.update(...)` with one binding for each output. */
  function Admit(admitted: map<Name, Binding>, c: Contract, run: string): map<Name, Binding> {
    map name | name in admitted.Keys + (set o | o in c.outputs) ::
      if name in c.outputs then Binding(name, run) else admitted[name]
  }

  const UNPROVEN_INPUT := Fault("unproven_input", Assess.Unproven)

  function Halt(w: Walk, fault: Fault): Walk { w.(ended := Some(Caught(fault))) }

  /** One turn of the loop over the nodes. */
  function Visit(r: Graph, allow: bool, w: Walk, i: nat, leaf: Leaf): Walk
    requires i < |r.order| == |w.states|
  {
    var c := r.order[i];
    var running := w.(states := w.states[i := Running], current := i);
    if leaf.saved.Some? then Halt(running, leaf.saved.value)
    else
      match Lookups(Inputs(r.edges, c), w.admitted)
      case None => running.(ended := Some(KeyError))
      case Some(bindings) =>
        if leaf.bound.Some? then Halt(running, leaf.bound.value)
        else
          var handed := running.(handed := w.handed + [bindings]);
          if leaf.ran.Err? then Halt(handed, leaf.ran.error)
          else
            var ran := handed.(runs := w.runs + [leaf.ran.value]);
            if leaf.revalidated.Some? then Halt(ran, leaf.revalidated.value)
            else if leaf.assessed.Some? then Halt(ran, leaf.assessed.value)
            else if Feeding(r.edges, c) && !(allow && leaf.limited) then Halt(ran, UNPROVEN_INPUT)
            else
              var done := ran.(
                admitted := if Feeding(r.edges, c) then Admit(w.admitted, c, leaf.ran.value) else w.admitted,
                finalized := w.finalized + Bindings(c, leaf.ran.value),
                states := w.states[i := Completed]);
              if leaf.recorded.Some? then Halt(done, leaf.recorded.value) else done
  }

  function Start(n: nat, opening: Option<Fault>): Walk {
    Walk(seq(n, _ => Pending), [], map[], [], [], 0, if opening.Some? then Some(Caught(opening.value)) else None)
  }

  /** The loop over the first `k` nodes. */
  function Walked(r: Graph, allow: bool, world: World, k: nat): (w: Walk)
    requires k <= |r.order| == |world.leaves|
    ensures |w.states| == |r.order|
  {
    if k == 0 then Start(|r.order|, world.opening)
    else
      var w := Walked(r, allow, world, k - 1);
      if w.ended.Some? then w else Visit(r, allow, w, k - 1, world.leaves[k - 1])
  }

  lemma {:induction false} WalkEnds(r: Graph, allow: bool, world: World, k: nat, n: nat)
    requires k <= n <= |r.order| == |world.leaves| && Walked(r, allow, world, k).ended.Some?
    ensures Walked(r, allow, world, n) == Walked(r, allow, world, k)
  {
    hide Visit;
    if k < n {
      WalkEnds(r, allow, world, k, n - 1);
    }
  }

  datatype Ended = Ended(outcome: Assess.Outcome, complete: bool, stop: Option<string>)

  /** The `except` clause: the current node stopped, those after it blocked. */
  function Stop(states: seq<NodeState>, current: nat): (stopped: seq<NodeState>)
    requires current < |states|
    ensures |stopped| == |states|
    ensures forall i :: 0 <= i < |states| ==>
      stopped[i] == if i < current then states[i] else if i == current then Stopped else Blocked
  {
    seq(|states|, i requires 0 <= i < |states| =>
      if i < current then states[i] else if i == current then Stopped else Blocked)
  }

  /** The whole run: None where a lookup failed, which nothing catches. */
  function Run(r: Graph, allow: bool, world: World): (Walk, Option<Ended>)
    requires 0 < |r.order| == |world.leaves|
  {
    var w := Walked(r, allow, world, |r.order|);
    var closing: Option<End> := if world.closing.Some? then Some(Caught(world.closing.value)) else None;
    var ended := if w.ended.None? then closing else w.ended;
    match ended
    case None => (w, Some(Ended(Assess.Complete, true, None)))
    case Some(KeyError) => (w, None)
    case Some(Caught(fault)) =>
      if w.current < |w.states| then
        (w.(states := Stop(w.states, w.current)), Some(Ended(fault.outcome, false, Some(fault.code))))
      else (w, None)
  }

  /** `run_chain` from the creation of its record to its result. */
  method RunChain(r: Graph, allow: bool, world: World) returns (walk: Walk, result: Option<Ended>)
    requires 0 < |r.order| == |world.leaves|
    ensures (walk, result) == Run(r, allow, world)
  {
    hide Visit, Admit, Feeding, EdgesOf;
    walk := Start(|r.order|, world.opening);
    var k := 0;
    while k < |r.order| && walk.ended.None?
      invariant 0 <= k <= |r.order|
      invariant walk == Walked(r, allow, world, k)
    {
      walk := VisitNode(r, allow, walk, k, world.leaves[k]);
      k := k + 1;
    }
    if walk.ended.Some? {
      WalkEnds(r, allow, world, k, |r.order|);
    }
    var ended := walk.ended;
    if ended.None? && world.closing.Some? {
      ended := Some(Caught(world.closing.value));
    }
    if ended.None? {
      return walk, Some(Ended(Assess.Complete, true, None));
    }
    if ended == Some(KeyError) || walk.current >= |walk.states| {
      return walk, None;
    }
    var states := walk.states;
    var i := walk.current + 1;
    states := states[walk.current := Stopped];
    while i < |states|
      invariant walk.current < i <= |states| == |walk.states|
      invariant forall m :: 0 <= m < |states| ==>
        states[m] == if m == walk.current then Stopped else if walk.current < m < i then Blocked else walk.states[m]
    {
      states := states[i := Blocked];
      i := i + 1;
    }
    assert states == Stop(walk.states, walk.current);
    return walk.(states := states), Some(Ended(ended.value.fault.outcome, false, Some(ended.value.fault.code)));
  }

  /** The body of the loop over the nodes. */
  method VisitNode(r: Graph, allow: bool, w: Walk, i: nat, leaf: Leaf) returns (walk: Walk)
    requires i < |r.order| == |w.states|
    ensures walk == Visit(r, allow, w, i, leaf)
  {
    hide Lookups, Feeding, EdgesOf, Admit;
    var c := r.order[i];
    walk := w.(states := w.states[i := Running], current := i);
    if leaf.saved.Some? {
      return Halt(walk, leaf.saved.value);
    }
    var bindings := Lookups(Inputs(r.edges, c), walk.admitted);
    if bindings.None? {
      return walk.(ended := Some(KeyError));
    }
    if leaf.bound.Some? {
      return Halt(walk, leaf.bound.value);
    }
    walk := walk.(handed := walk.handed + [bindings.value]);
    if leaf.ran.Err? {
      return Halt(walk, leaf.ran.error);
    }
    var run := leaf.ran.value;
    walk := walk.(runs := walk.runs + [run]);
    if leaf.revalidated.Some? {
      return Halt(walk, leaf.revalidated.value);
    }
    if leaf.assessed.Some? {
      return Halt(walk, leaf.assessed.value);
    }
    if Feeding(r.edges, c) {
      if !(allow && leaf.limited) {
        return Halt(walk, UNPROVEN_INPUT);
      }
      walk := walk.(admitted := Admit(walk.admitted, c, run));
    }
    walk := walk.(finalized := walk.finalized + Bindings(c, run), states := w.states[i := Completed]);
    if leaf.recorded.Some? {
      return Halt(walk, leaf.recorded.value);
    }
  }
}
