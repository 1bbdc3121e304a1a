/** Bounded repair (`run_repair`) over whole attempts, and the controller record that links them. */
module Repair {
  import opened Prelude
  import opened Assess
  import opened Attempt

  /** What a controller's record says of one attempt; None until the attempt has been assessed. */
  datatype Row = Row(index: int, id: string, sha: Option<string>, outcome: Option<Outcome>)

  datatype Controller = Controller(
    phase: string, finalized: bool, attempts: seq<Row>, selected: Option<string>, result: Option<RunResult>)

  /** A child's record on disk, and the attempt number it was given. */
  datatype Child = Child(record: Record, attempt: int)

  type Digest = Child -> string

  /** The controller's record in memory and on disk, and the outcomes of its writes to come. */
  datatype Ledger = Ledger(data: Controller, disk: Controller, writes: seq<Write>)

  function Commit(s: Ledger, data: Controller): (Ledger, bool) {
    if s.writes == [] then (Ledger(data, data, []), true)
    else
      var rest := s.writes[1..];
      match s.writes[0]
      case Written => (Ledger(data, data, rest), true)
      case KeptOld => (Ledger(data, s.disk, rest), false)
      case FailedLate => (Ledger(data, data, rest), false)
  }

  /** One planned attempt: the run it is given and the world it meets. */
  datatype Try = Try(
    expired: bool,               // the shared allowance is over
    refused: Option<string>,     // admission fails, before a run is created
    id: string,
    created: Record,
    writes: seq<Write>,
    world: World,
    rejection: Option<Fault>,    // retained evidence, where a rejection is validated
    diagnostics: Option<string>, // reading the transcript for the next attempt
    selection: Option<Fault>,    // retained evidence, before and after a COMPLETE is selected
    confirmation: Option<Fault>)

  datatype Plan = Plan(contract: Contract, resources: string, maxAttempts: nat)

  predicate Fits(plan: Plan, t: Try) { |t.world.turns| == |plan.contract.checks| }

  /** How the loop has ended: with a result and its reason, or with an error to be recorded. */
  datatype Ending = Returned(id: string, result: RunResult, reason: string) | Aborting(code: string)

  datatype Loop = Loop(ledger: Ledger, runs: map<string, Child>, seen: set<string>, ending: Option<Ending>)

  function CodeOf(fault: Fault): string {
    match fault
    case Refused(code, _) => code
    case Unreadable => FILESYSTEM
  }

  function End(l: Loop, code: string): Loop { l.(ending := Some(Aborting(code))) }

  // ------------------------------------------------------------------ one attempt

  /** `attach_attempt` */
  function Attached(data: Controller, id: string): Controller {
    data.(phase := "executing", attempts := data.attempts + [Row(|data.attempts| + 1, id, None, None)])
  }

  /** `record_attempt`'s update of the last row. */
  function Assessed(data: Controller, sha: string, outcome: Outcome): Controller
    requires data.attempts != []
  {
    var last := |data.attempts| - 1;
    var row := data.attempts[last].(sha := Some(sha), outcome := Some(outcome));
    data.(phase := "assessed", attempts := data.attempts[last := row])
  }

  predicate Assessable(c: Observed) {
    (c.normalized == 0 || c.normalized == 1) && (CleanExit(c.process, 0) || CleanExit(c.process, 1))
  }

  /** `rejected_inputs`: whether this is a validated rejection, which alone may be retried. */
  function RejectedInputs(plan: Plan, r: RunResult, record: Record, evidence: Option<Fault>): Result<bool, Fault> {
    if r.outcome != Rejected || r.stop.Some? || |r.checks| != |plan.contract.checks| || r.checks == []
       || exists c :: c in r.checks && !Assessable(c)
    then Ok(false)
    else
      match AssessedInputs(plan.contract, plan.resources, r, record, evidence, true)
      case Some(fault) => Err(fault)
      case None => Ok(true)
  }

  predicate RowAccepted(doc: Controller, i: int, runs: map<string, Child>, digest: Digest)
    requires 0 <= i < |doc.attempts|
  {
    var row, last := doc.attempts[i], i == |doc.attempts| - 1;
    && row.index == i + 1 && row.id in runs
    && var child := runs[row.id];
    && row.sha == Some(digest(child)) && child.attempt == i + 1
    && child.record.complete && child.record.phase == "finished" && child.record.result.Some?
    && row.outcome == Some(child.record.result.value.outcome)
    && row.outcome == Some(if last then Complete else Rejected)
    && (last ==> child.record.result == doc.result)
  }

  /** The rules `_controller_document` puts on a history. */
  predicate Accepts(doc: Controller, runs: map<string, Child>, digest: Digest, selected: string, maxAttempts: nat) {
    && doc.finalized && doc.phase == "finished" && doc.selected == Some(selected)
    && doc.result.Some? && doc.result.value.outcome == Complete
    && 1 <= |doc.attempts| <= maxAttempts <= 16
    && |set i | 0 <= i < |doc.attempts| :: doc.attempts[i].id| == |doc.attempts|
    && doc.attempts[|doc.attempts| - 1].id == selected
    && forall i :: 0 <= i < |doc.attempts| ==> RowAccepted(doc, i, runs, digest)
  }

  function FinishedController(data: Controller, id: string, r: RunResult): Controller {
    var selected := if r.outcome == Complete then Some(id) else None;
    data.(phase := "finished", finalized := true, selected := selected, result := Some(r))
  }

  /** `finish_controller` */
  function FinishController(plan: Plan, l: Loop, digest: Digest, t: Try, r: RunResult, reason: string): Loop
    requires t.id in l.runs
  {
    var before := if r.outcome == Complete
      then AssessedInputs(plan.contract, plan.resources, r, l.runs[t.id].record, t.selection, false) else None;
    if before.Some? then End(l, CodeOf(before.value))
    else
      var (ledger, ok) := Commit(l.ledger, FinishedController(l.ledger.data, t.id, r));
      var written := l.(ledger := ledger);
      if !ok then End(written, FILESYSTEM)
      else if r.outcome != Complete then written.(ending := Some(Returned(t.id, r, reason)))
      else if !Accepts(ledger.disk, l.runs, digest, t.id, plan.maxAttempts) then End(written, "record_changed")
      else
        var after := AssessedInputs(plan.contract, plan.resources, r, l.runs[t.id].record, t.confirmation, false);
        if after.Some? then End(written, CodeOf(after.value))
        else written.(ending := Some(Returned(t.id, r, reason)))
  }

  /** From a returned result on. */
  function Judge(plan: Plan, l: Loop, digest: Digest, t: Try, r: RunResult, index: nat): Loop
    requires t.id in l.runs
  {
    if r.outcome == Complete then FinishController(plan, l, digest, t, r, "complete")
    else
      match RejectedInputs(plan, r, l.runs[t.id].record, t.rejection)
      case Err(fault) => End(l, CodeOf(fault))
      case Ok(false) => FinishController(plan, l, digest, t, r, "not_retryable")
      case Ok(true) =>
        var signature := if r.artifact.Some? then r.artifact.value.digest else "";
        if signature in l.seen then FinishController(plan, l, digest, t, r, "no_progress")
        else if index == plan.maxAttempts then FinishController(plan, l, digest, t, r, "max_attempts")
        else
          var more := l.(seen := l.seen + {signature});
          if t.diagnostics.Some? then End(more, t.diagnostics.value) else more
  }

  function RecordRow(l: Loop, digest: Digest, t: Try, r: RunResult): Loop
    requires t.id in l.runs
  {
    var data := l.ledger.data;
    if data.attempts == [] || data.attempts[|data.attempts| - 1].id != t.id then End(l, "record_changed")
    else if l.runs[t.id].record.result != Some(r) then End(l, "record_changed")
    else
      var (ledger, ok) := Commit(l.ledger, Assessed(data, digest(l.runs[t.id]), r.outcome));
      if ok then l.(ledger := ledger) else End(l.(ledger := ledger), FILESYSTEM)
  }

  /** One turn of the loop, for the attempt numbered `index`. */
  function Advance(plan: Plan, l: Loop, digest: Digest, t: Try, index: nat): Loop
    requires Fits(plan, t)
  {
    if t.expired then End(l, "budget_deadline")
    else if t.refused.Some? then End(l, t.refused.value)
    else
      var (ledger, ok) := Commit(l.ledger, Attached(l.ledger.data, t.id));
      var attached := l.(ledger := ledger, runs := l.runs[t.id := Child(t.created, index)]);
      if !ok then End(attached, FILESYSTEM)
      else
        var state := State(t.created, t.created, t.writes);
        var (after, result) := RunAttempt(plan.contract, plan.resources, state, t.world);
        var ran := attached.(runs := attached.runs[t.id := Child(after.disk, index)]);
        match result
        case Err(raised) => End(ran, raised.code)
        case Ok(r) =>
          var recorded := RecordRow(ran, digest, t, r);
          if recorded.ending.Some? then recorded else Judge(plan, recorded, digest, t, r, index)
  }

  /** The loop over the first `k` attempts. */
  function Attempts(plan: Plan, start: Ledger, digest: Digest, tries: seq<Try>, k: nat): Loop
    requires k <= |tries| && forall t :: t in tries ==> Fits(plan, t)
  {
    if k == 0 then Loop(start, map[], {}, None)
    else
      var l := Attempts(plan, start, digest, tries, k - 1);
      if l.ending.Some? then l else Advance(plan, l, digest, tries[k - 1], k)
  }

  lemma {:induction false} AttemptsEnd(plan: Plan, start: Ledger, digest: Digest, tries: seq<Try>, k: nat, n: nat)
    requires k <= n <= |tries| && forall t :: t in tries ==> Fits(plan, t)
    requires Attempts(plan, start, digest, tries, k).ending.Some?
    ensures Attempts(plan, start, digest, tries, n) == Attempts(plan, start, digest, tries, k)
  {
    hide Advance;
    if k < n {
      AttemptsEnd(plan, start, digest, tries, k, n - 1);
    }
  }

  // ------------------------------------------------------------------ the whole call

  datatype Failure = Failure(code: string, lost: bool)

  function Halt(data: Controller): Controller {
    data.(phase := "halted", finalized := false, selected := None, result := None)
  }

  /** `abort` */
  function Abort(s: Ledger, code: string): (Ledger, Failure) {
    var (after, ok) := Commit(s, Halt(s.data));
    (after, if ok then Failure(code, false) else Failure("controller_finalization_failure", true))
  }

  /** `run_repair` once its controller has been created: what it leaves and what it gives. */
  function RunRepair(plan: Plan, start: Ledger, digest: Digest, tries: seq<Try>)
    : (Loop, Result<(string, RunResult), Failure>)
    requires |tries| == plan.maxAttempts && forall t :: t in tries ==> Fits(plan, t)
  {
    var l := Attempts(plan, start, digest, tries, |tries|);
    match l.ending
    case Some(Returned(id, r, _)) => (l, Ok((id, r)))
    case Some(Aborting(code)) =>
      var (ledger, failure) := Abort(l.ledger, code);
      (l.(ledger := ledger), Err(failure))
    case None =>
      var (ledger, failure) := Abort(l.ledger, "invalid_budget");
      (l.(ledger := ledger), Err(failure))
  }

  class ControllerStore {
    var data: Controller
    var disk: Controller
    var writes: seq<Write>

    ghost function View(): Ledger reads this { Ledger(data, disk, writes) }

    constructor (start: Ledger)
      ensures View() == start
    {
      data, disk, writes := start.data, start.disk, start.writes;
    }

    method Update(observed: Controller) returns (ok: bool)
      modifies this
      ensures (View(), ok) == Commit(old(View()), observed)
    {
      data := observed;
      if writes == [] {
        disk := data;
        return true;
      }
      var outcome := writes[0];
      writes := writes[1..];
      if outcome != KeptOld {
        disk := data;
      }
      ok := outcome == Written;
    }

    method RecordAttempt(id: string, child: Child, digest: Digest, r: RunResult) returns (fault: Option<string>)
      modifies this
      ensures forall l: Loop, t: Try | l.ledger == old(View()) && t.id == id && id in l.runs
          && l.runs[id] == child && l.ending.None? ::
        RecordRow(l, digest, t, r) == l.(ledger := View(),
            ending := if fault.Some? then Some(Aborting(fault.value)) else None)
    {
      hide Commit, Assessed;
      if data.attempts == [] || data.attempts[|data.attempts| - 1].id != id || child.record.result != Some(r) {
        return Some("record_changed");
      }
      var ok := Update(Assessed(data, digest(child), r.outcome));
      return if ok then None else Some(FILESYSTEM);
    }

    method Finish(plan: Plan, ghost l: Loop, runs: map<string, Child>, digest: Digest, t: Try, r: RunResult,
                  reason: string) returns (ending: Ending)
      requires l.ledger == View() && l.runs == runs && t.id in runs && l.ending.None?
      modifies this
      ensures l.(ledger := View(), ending := Some(ending)) == FinishController(plan, l, digest, t, r, reason)
    {
      hide Commit, Accepts, AssessedInputs;
      if r.outcome == Complete {
        var fault := AssessedInputs(plan.contract, plan.resources, r, runs[t.id].record, t.selection, false);
        if fault.Some? {
          return Aborting(CodeOf(fault.value));
        }
      }
      var ok := Update(FinishedController(data, t.id, r));
      if !ok {
        return Aborting(FILESYSTEM);
      }
      if r.outcome == Complete {
        if !Accepts(disk, runs, digest, t.id, plan.maxAttempts) {
          return Aborting("record_changed");
        }
        var fault := AssessedInputs(plan.contract, plan.resources, r, runs[t.id].record, t.confirmation, false);
        if fault.Some? {
          return Aborting(CodeOf(fault.value));
        }
      }
      return Returned(t.id, r, reason);
    }

    /** The part of one turn that judges a recorded result: None to go on with the next attempt. */
    method JudgeResult(plan: Plan, ghost l: Loop, runs: map<string, Child>, seen0: set<string>, digest: Digest,
                       t: Try, r: RunResult, index: nat) returns (seen: set<string>, ending: Option<Ending>)
      requires l.ledger == View() && l.runs == runs && l.seen == seen0 && t.id in runs && l.ending.None?
      modifies this
      ensures l.(ledger := View(), seen := seen, ending := ending) == Judge(plan, l, digest, t, r, index)
    {
      hide RejectedInputs, FinishController;
      seen := seen0;
      var reason := "complete";
      if r.outcome != Complete {
        var previous := RejectedInputs(plan, r, runs[t.id].record, t.rejection);
        if previous.Err? {
          return seen, Some(Aborting(CodeOf(previous.error)));
        }
        var signature := if r.artifact.Some? then r.artifact.value.digest else "";
        if !previous.value {
          reason := "not_retryable";
        } else if signature in seen {
          reason := "no_progress";
        } else if index == plan.maxAttempts {
          reason := "max_attempts";
        } else {
          seen := seen + {signature};
          return seen, if t.diagnostics.Some? then Some(Aborting(t.diagnostics.value)) else None;
        }
      }
      var end := Finish(plan, l, runs, digest, t, r, reason);
      ending := Some(end);
    }

    /** One attempt, from its admission to its judgement. */
    method RunOne(plan: Plan, ghost l: Loop, runs0: map<string, Child>, seen0: set<string>, digest: Digest, t: Try,
                  index: nat) returns (runs: map<string, Child>, seen: set<string>, ending: Option<Ending>)
      requires Fits(plan, t) && l == Loop(View(), runs0, seen0, None)
      modifies this
      ensures Loop(View(), runs, seen, ending) == Advance(plan, l, digest, t, index)
    {
      hide RunAttempt, Commit, Attached, RecordRow, Judge;
      runs, seen := runs0, seen0;
      if t.expired {
        return runs, seen, Some(Aborting("budget_deadline"));
      }
      if t.refused.Some? {
        return runs, seen, Some(Aborting(t.refused.value));
      }
      var attempt := new AttemptStore(t.created, t.writes);
      var ok := Update(Attached(data, t.id));
      runs := runs[t.id := Child(t.created, index)];
      if !ok {
        return runs, seen, Some(Aborting(FILESYSTEM));
      }
      var result := attempt.Run(plan.contract, plan.resources, t.world);
      runs := runs[t.id := Child(attempt.disk, index)];
      if result.Err? {
        return runs, seen, Some(Aborting(result.error.code));
      }
      ghost var ran := Loop(View(), runs, seen, None);
      var fault := RecordAttempt(t.id, runs[t.id], digest, result.value);
      ghost var recorded := RecordRow(ran, digest, t, result.value);
      if fault.Some? {
        return runs, seen, Some(Aborting(fault.value));
      }
      seen, ending := JudgeResult(plan, recorded, runs, seen, digest, t, result.value, index);
    }

    method Run(plan: Plan, digest: Digest, tries: seq<Try>)
      returns (runs: map<string, Child>, seen: set<string>, ending: Option<Ending>,
               result: Result<(string, RunResult), Failure>)
      requires |tries| == plan.maxAttempts && forall t :: t in tries ==> Fits(plan, t)
      modifies this
      ensures (Loop(View(), runs, seen, ending), result) == RunRepair(plan, old(View()), digest, tries)
    {
      hide Advance, Commit, Halt, Fits;
      ghost var start := View();
      runs, seen, ending := map[], {}, None;
      var k := 0;
      while k < |tries| && ending.None?
        invariant 0 <= k <= |tries|
        invariant Loop(View(), runs, seen, ending) == Attempts(plan, start, digest, tries, k)
      {
        ghost var l := Loop(View(), runs, seen, ending);
        runs, seen, ending := RunOne(plan, l, runs, seen, digest, tries[k], k + 1);
        k := k + 1;
      }
      if ending.Some? {
        AttemptsEnd(plan, start, digest, tries, k, |tries|);
      }
      if ending.Some? && ending.value.Returned? {
        return runs, seen, ending, Ok((ending.value.id, ending.value.result));
      }
      var code := if ending.Some? then ending.value.code else "invalid_budget";
      var ok := Update(Halt(data));
      result := Err(if ok then Failure(code, false) else Failure("controller_finalization_failure", true));
    }
  }
}
