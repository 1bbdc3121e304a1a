/** The record of an attempt under failing writes (`AttemptStore`), and the attempt itself (`run_attempt`). */
module Attempt {
  import opened Prelude
  import opened Assess

  // ------------------------------------------------------------------ the record on disk

  /** One atomic write: done, failed before the file was replaced, or failed after it. */
  datatype Write = Written | KeptOld | FailedLate

  /** The record in memory, the record on disk, and the outcomes of the writes to come. */
  datatype State = State(data: Record, disk: Record, writes: seq<Write>)

  /** `_write`; past the foreseen outcomes, writes succeed. */
  function WriteOut(s: State): (State, bool) {
    if s.writes == [] then (s.(disk := s.data), true)
    else
      var after := s.(writes := s.writes[1..]);
      match s.writes[0]
      case Written => (after.(disk := s.data), true)
      case KeptOld => (after, false)
      case FailedLate => (after.(disk := s.data), false)
  }

  function Update(s: State, data: Record): (State, bool) { WriteOut(s.(data := data)) }

  /** A raised error: `lost` where its text says that the failure state could not be persisted either. */
  datatype Raised = Raised(code: string, outcome: Outcome, lost: bool)

  /** The transcript, as finishing finds it. */
  datatype Transcript = Inspected | Missing | Unusable

  /** What finalization meets outside the record: transcripts and retained evidence, each twice. */
  datatype FinalWorld = FinalWorld(
    first: Transcript, evidence: Option<Fault>, second: Transcript, again: Option<Fault>)

  function FailureRecord(data: Record, r: RunResult): Record {
    data.(complete := false, phase := "finalization_failed",
          result := Some(r.(outcome := Halted, stop := Some("finalization_failure"))))
  }

  function FailFinalization(s: State, r: RunResult): (State, Raised) {
    var (after, ok) := Update(s, FailureRecord(s.data, r));
    (after, Raised("finalization_failure", Halted, !ok))
  }

  function FinishedRecord(data: Record, r: RunResult): Record {
    data.(complete := true, phase := "finished", pending := false, result := Some(r))
  }

  predicate TranscriptFails(t: Transcript, r: RunResult) {
    t == Unusable || (t == Missing && (r.outcome == Complete || Limited(r)))
  }

  function Finish(s: State, r: RunResult, t: Transcript): (State, Option<Raised>) {
    if TranscriptFails(t, r) then
      var (after, raised) := FailFinalization(s, r);
      (after, Some(raised))
    else
      var (after, ok) := Update(s, FinishedRecord(s.data, r));
      if ok then (after, None)
      else
        var (failed, raised) := FailFinalization(after, r);
        (failed, Some(raised))
  }

  function RefusedRecord(data: Record, r: RunResult, fault: Fault): Record
    requires fault.Refused?
  {
    data.(complete := false, phase := "finalization_failed", result := Some(RefusedResult(r, fault)))
  }

  function RefusedResult(r: RunResult, fault: Fault): RunResult
    requires fault.Refused?
  {
    r.(outcome := fault.outcome, stop := if fault.outcome == Halted then Some(fault.code) else None)
  }

  /** `finalize`: COMPLETE only after the durable record has passed the validator, twice. */
  function Finalize(contract: Contract, resources: string, s: State, r: RunResult, w: FinalWorld)
      : (State, Result<RunResult, Raised>)
  {
    var (one, stopped) := Finish(s, r, w.first);
    if stopped.Some? then (one, Err(stopped.value))
    else if !Limited(r) then (one, Ok(r))
    else
      match AssessedInputs(contract, resources, r, one.disk, w.evidence, false)
      case Some(Unreadable) =>
        var (after, raised) := FailFinalization(one, r);
        (after, Err(raised))
      case Some(Refused(code, outcome)) =>
        var fault := Refused(code, outcome);
        var (after, ok) := Update(one, RefusedRecord(one.data, r, fault));
        if ok then (after, Err(Raised(code, outcome, false)))
        else
          var (failed, raised) := FailFinalization(after, RefusedResult(r, fault));
          (failed, Err(raised))
      case None =>
        var completed := r.(outcome := Complete);
        var (two, halted) := Finish(one, completed, w.second);
        if halted.Some? then (two, Err(halted.value))
        else if AssessedInputs(contract, resources, completed, two.disk, w.again, false).Some? then
          var (after, raised) := FailFinalization(two, completed);
          (after, Err(raised))
        else (two, Ok(completed))
  }

  // ------------------------------------------------------------------ running the checks

  /** What one check meets. The faults are errors raised on the way, before or after its child has run. */
  datatype Turn = Turn(
    early: Option<string>,    // the deadline, or preparing its workspace
    before: bool,             // subject and resources intact before
    middle: Option<string>,   // the deadline again, or an error while it runs
    process: Process,
    late: Option<string>,     // reading its workspace afterwards
    after: bool,              // subject and resources intact after
    over: bool)               // the attempt's deadline has passed by then

  const CHANGED_RESOURCES := "The supplied subject or check resources changed."
  const FILESYSTEM := "filesystem_error"

  /** The checks so far: their observations, and a stop reason once there is one. */
  datatype Ran = Ran(state: State, seen: seq<Observed>, stop: Option<string>)

  function ProcessOf(t: Turn): Process {
    if t.before then t.process else Process(None, None, Some(CHANGED_RESOURCES), true)
  }

  function ObservedOf(check: Check, t: Turn, artifact: Artifact, resources: string): Observed {
    Observed(check.name, check.command, ProcessOf(t), NormalizeCheck(ProcessOf(t), t.before && t.after),
             artifact.digest, resources)
  }

  /** Up to the observation itself; None where an error was raised instead. */
  function Launch(s: State, t: Turn): (State, Option<string>) {
    if t.early.Some? then (s, t.early)
    else if !t.before then (s, t.late)
    else
      var (active, ok) := Update(s, s.data.(phase := "checks", pending := true));
      if !ok then (active, Some(FILESYSTEM))
      else if t.middle.Some? then (active, t.middle)
      else
        var (started, held) := Update(active, active.data);
        if !held then (started, Some(FILESYSTEM)) else (started, t.late)
  }

  function StopOf(p: Process, over: bool): Option<string> {
    if p.stop.Some? && p.stop != Some("timeout") then p.stop
    else if !p.confirmed then Some("checker_stop_unconfirmed")
    else if over then Some("attempt_deadline")
    else None
  }

  function CheckOne(r: Ran, check: Check, t: Turn, artifact: Artifact, resources: string): Ran {
    var (s, fault) := Launch(r.state, t);
    if fault.Some? then r.(state := s, stop := fault)
    else
      var seen := r.seen + [ObservedOf(check, t, artifact, resources)];
      var (recorded, ok) := Update(s, s.data.(phase := "checks", checks := Some(seen)));
      Ran(recorded, seen, if ok then StopOf(ProcessOf(t), t.over) else Some(FILESYSTEM))
  }

  /** The loop of `_run_checks` over the first `k` checks. */
  function Checks(contract: Contract, turns: seq<Turn>, artifact: Artifact, resources: string, s: State, k: nat): Ran
    requires k <= |contract.checks| == |turns|
  {
    if k == 0 then Ran(s, [], None)
    else
      var r := Checks(contract, turns, artifact, resources, s, k - 1);
      if r.stop.Some? then r else CheckOne(r, contract.checks[k - 1], turns[k - 1], artifact, resources)
  }

  // ------------------------------------------------------------------ the attempt

  datatype Caught = Failed(code: string) | Interrupted

  /** Everything an attempt meets, from its first record update on. */
  datatype World = World(
    setup: Option<Caught>,            // capturing the workspace
    request: Option<Caught>,          // building the request, and the deadline
    supervision: Option<Caught>,      // an error while the producer runs
    producer: Process,
    nativeExit: Option<int>,
    protocolError: bool,
    completion: bool,
    expired: Option<Caught>,          // the deadline, before capture
    captured: Result<Option<Artifact>, Caught>,
    exports: Option<Caught>,          // capturing native exports, where requested
    turns: seq<Turn>,
    closing: bool,                    // the transcript could not be closed
    final: FinalWorld)

  /** The body of `run_attempt`'s `try`: what it had when it ended, and what it raised if it did. */
  datatype Body = Body(
    state: State, artifact: Option<Artifact>, checks: seq<Observed>, stop: Option<string>, raised: Option<Caught>)

  function ProducerFailure(p: Process): Option<string> {
    if p.stop.Some? then p.stop
    else if !p.confirmed then Some("producer_stop_unconfirmed")
    else if p.error.Some? || p.code != Some(0) then Some("producer_failed")
    else None
  }

  function StopReason(w: World): Option<string> {
    var failure := ProducerFailure(w.producer);
    if failure.Some? then failure
    else if w.nativeExit.Some? && w.nativeExit != Some(0) then Some("native_reported_failure")
    else if w.protocolError then Some("native_protocol_error")
    else if !w.completion then Some("native_completion_unobserved")
    else None
  }

  /** Up to the start of the producer, and its supervision. */
  function Produce(s: State, w: World): (State, Option<Caught>) {
    var (one, ok1) := Update(s, s.data.(phase := "preflight"));
    if !ok1 then (one, Some(Failed(FILESYSTEM)))
    else if w.setup.Some? then (one, w.setup)
    else
      var (two, ok2) := Update(one, one.data.(phase := "execution"));
      if !ok2 then (two, Some(Failed(FILESYSTEM)))
      else if w.request.Some? then (two, w.request)
      else
        var (three, ok3) := Update(two, two.data.(pending := true));
        if !ok3 then (three, Some(Failed(FILESYSTEM)))
        else if w.supervision.Some? then (three, w.supervision)
        else
          var produced :=
            three.data.(producer := Some(w.producer), completion := Some(w.completion), nativeExit := w.nativeExit);
          var (four, ok4) := Update(three, produced);
          (four, if ok4 then None else Some(Failed(FILESYSTEM)))
  }

  /** Capturing what a confirmed producer left behind. */
  function Capture(s: State, w: World, stop: Option<string>): Body {
    if !w.producer.confirmed then Body(s, None, [], stop, None)
    else if stop.None? && w.expired.Some? then Body(s, None, [], stop, w.expired)
    else
      var (one, ok1) := Update(s, s.data.(phase := "capture"));
      if !ok1 then Body(one, None, [], stop, Some(Failed(FILESYSTEM)))
      else
        match w.captured
        case Err(caught) => Body(one, None, [], stop, Some(caught))
        case Ok(artifact) =>
          var (two, ok2) := Update(one, one.data.(artifact := Some(artifact)));
          Body(two, artifact, [], stop, if ok2 then None else Some(Failed(FILESYSTEM)))
  }

  function Execute(contract: Contract, resources: string, s: State, w: World): Body
    requires |w.turns| == |contract.checks|
  {
    var (produced, raised) := Produce(s, w);
    if raised.Some? then Body(produced, None, [], None, raised)
    else
      var b := Capture(produced, w, StopReason(w));
      if b.raised.Some? || b.stop.Some? then b
      else if w.exports.Some? then b.(raised := w.exports)
      else if b.artifact.None? then b
      else
        var ran := Checks(contract, w.turns, b.artifact.value, resources, b.state, |contract.checks|);
        b.(state := ran.state, checks := ran.seen, stop := ran.stop)
  }

  /** The stop reason after the `except` clauses. */
  function AfterCatch(b: Body): Option<string> {
    match b.raised
    case None => b.stop
    case Some(Interrupted) => Some("cancelled")
    case Some(Failed(code)) => if b.stop.Some? then b.stop else Some(code)
  }

  function ResultOf(b: Body): RunResult {
    RunResult(ReduceOutcome(b.checks, AfterCatch(b)), b.artifact, b.checks, AfterCatch(b))
  }

  /** `run_attempt`, once its record has been created in state `s`. */
  function RunAttempt(contract: Contract, resources: string, s: State, w: World): (State, Result<RunResult, Raised>)
    requires |w.turns| == |contract.checks|
  {
    var b := Execute(contract, resources, s, w);
    var r := ResultOf(b);
    if w.closing then
      var (after, raised) := FailFinalization(b.state, r);
      (after, Err(raised))
    else
      var (recorded, ok) := Update(b.state, b.state.data.(phase := "record"));
      if !ok then
        var (after, raised) := FailFinalization(recorded, r);
        (after, Err(raised))
      else Finalize(contract, resources, recorded, r, w.final)
  }

  // ------------------------------------------------------------------ the class

  class AttemptStore {
    var data: Record
    var disk: Record
    var writes: seq<Write>

    ghost function View(): State reads this { State(data, disk, writes) }

    constructor (data: Record, writes: seq<Write>)
      ensures View() == State(data, data, writes)
    {
      this.data, this.disk, this.writes := data, data, writes;
    }

    method Write() returns (ok: bool)
      modifies this
      ensures (View(), ok) == WriteOut(old(View()))
    {
      if writes == [] {
        disk := data;
        return true;
      }
      var outcome := writes[0];
      writes := writes[1..];
      if outcome != KeptOld {
        disk := data;
      }
      ok := outcome == Written;
    }

    /** `update`: observations and the phase, committed at once. */
    method Commit(observed: Record) returns (ok: bool)
      modifies this
      ensures (View(), ok) == Update(old(View()), observed)
    {
      data := observed;
      ok := Write();
    }

    method FailFinal(r: RunResult) returns (raised: Raised)
      modifies this
      ensures (View(), raised) == FailFinalization(old(View()), r)
    {
      data := FailureRecord(data, r);
      var ok := Write();
      return Raised("finalization_failure", Halted, !ok);
    }

    method FinishRun(r: RunResult, t: Transcript) returns (raised: Option<Raised>)
      modifies this
      ensures (View(), raised) == Finish(old(View()), r, t)
    {
      if TranscriptFails(t, r) {
        var failure := FailFinal(r);
        return Some(failure);
      }
      data := FinishedRecord(data, r);
      var ok := Write();
      if !ok {
        var failure := FailFinal(r);
        return Some(failure);
      }
      return None;
    }

    method FinalizeRun(contract: Contract, resources: string, r: RunResult, w: FinalWorld)
        returns (result: Result<RunResult, Raised>)
      modifies this
      ensures (View(), result) == Finalize(contract, resources, old(View()), r, w)
    {
      hide WriteOut, FinishedRecord, FailureRecord, Limited, AssessedInputs, TranscriptFails, Finish;
      var stopped := FinishRun(r, w.first);
      if stopped.Some? {
        return Err(stopped.value);
      }
      if !Limited(r) {
        return Ok(r);
      }
      var fault := AssessedInputs(contract, resources, r, disk, w.evidence, false);
      if fault == Some(Unreadable) {
        var raised := FailFinal(r);
        return Err(raised);
      }
      if fault.Some? {
        var ok := Commit(RefusedRecord(data, r, fault.value));
        if !ok {
          var raised := FailFinal(RefusedResult(r, fault.value));
          return Err(raised);
        }
        return Err(Raised(fault.value.code, fault.value.outcome, false));
      }
      var completed := r.(outcome := Complete);
      var halted := FinishRun(completed, w.second);
      if halted.Some? {
        return Err(halted.value);
      }
      if AssessedInputs(contract, resources, completed, disk, w.again, false).Some? {
        var raised := FailFinal(completed);
        return Err(raised);
      }
      return Ok(completed);
    }

    /** The part of `_run_checks` up to an observation. */
    method LaunchCheck(t: Turn) returns (fault: Option<string>)
      modifies this
      ensures (View(), fault) == Launch(old(View()), t)
    {
      hide WriteOut;
      if t.early.Some? {
        return t.early;
      }
      if t.before {
        var ok := Commit(data.(phase := "checks", pending := true));
        if !ok {
          return Some(FILESYSTEM);
        }
        if t.middle.Some? {
          return t.middle;
        }
        ok := Commit(data);
        if !ok {
          return Some(FILESYSTEM);
        }
      }
      return t.late;
    }

    /** `_run_checks` */
    method RunChecks(contract: Contract, turns: seq<Turn>, artifact: Artifact, resources: string)
        returns (seen: seq<Observed>, stop: Option<string>)
      requires |turns| == |contract.checks|
      modifies this
      ensures Ran(View(), seen, stop)
        == Checks(contract, turns, artifact, resources, old(View()), |contract.checks|)
    {
      hide WriteOut, Launch, StopOf, ObservedOf;
      seen, stop := [], None;
      ghost var s := View();
      for k := 0 to |contract.checks|
        invariant stop.None?
        invariant Ran(View(), seen, stop) == Checks(contract, turns, artifact, resources, s, k)
      {
        var t, check := turns[k], contract.checks[k];
        stop := LaunchCheck(t);
        if stop.None? {
          seen := seen + [ObservedOf(check, t, artifact, resources)];
          var ok := Commit(data.(phase := "checks", checks := Some(seen)));
          stop := if ok then StopOf(ProcessOf(t), t.over) else Some(FILESYSTEM);
        }
        if stop.Some? {
          ChecksStop(contract, turns, artifact, resources, s, k + 1, |contract.checks|);
          return;
        }
      }
    }

    /** The first part of the body of `run_attempt`: up to the producer's observation. */
    method ProduceRun(w: World) returns (raised: Option<Caught>)
      modifies this
      ensures (View(), raised) == Produce(old(View()), w)
    {
      hide WriteOut;
      var ok := Commit(data.(phase := "preflight"));
      if !ok {
        return Some(Failed(FILESYSTEM));
      }
      if w.setup.Some? {
        return w.setup;
      }
      ok := Commit(data.(phase := "execution"));
      if !ok {
        return Some(Failed(FILESYSTEM));
      }
      if w.request.Some? {
        return w.request;
      }
      ok := Commit(data.(pending := true));
      if !ok {
        return Some(Failed(FILESYSTEM));
      }
      if w.supervision.Some? {
        return w.supervision;
      }
      ok := Commit(data.(producer := Some(w.producer), completion := Some(w.completion), nativeExit := w.nativeExit));
      return if ok then None else Some(Failed(FILESYSTEM));
    }

    method CaptureRun(w: World, stop: Option<string>) returns (artifact: Option<Artifact>, raised: Option<Caught>)
      modifies this
      ensures Body(View(), artifact, [], stop, raised) == Capture(old(View()), w, stop)
    {
      hide WriteOut;
      artifact := None;
      if !w.producer.confirmed {
        return None, None;
      }
      if stop.None? && w.expired.Some? {
        return None, w.expired;
      }
      var ok := Commit(data.(phase := "capture"));
      if !ok {
        return None, Some(Failed(FILESYSTEM));
      }
      if w.captured.Err? {
        return None, Some(w.captured.error);
      }
      artifact := w.captured.value;
      ok := Commit(data.(artifact := Some(artifact)));
      return artifact, if ok then None else Some(Failed(FILESYSTEM));
    }

    method ExecuteRun(contract: Contract, resources: string, w: World)
        returns (artifact: Option<Artifact>, checks: seq<Observed>, stop: Option<string>, raised: Option<Caught>)
      requires |w.turns| == |contract.checks|
      modifies this
      ensures Body(View(), artifact, checks, stop, raised) == Execute(contract, resources, old(View()), w)
    {
      hide Produce, Capture, Checks, StopReason;
      artifact, checks, stop := None, [], None;
      raised := ProduceRun(w);
      if raised.Some? {
        return;
      }
      stop := StopReason(w);
      artifact, raised := CaptureRun(w, stop);
      if raised.Some? || stop.Some? {
        return;
      }
      if w.exports.Some? {
        raised := w.exports;
        return;
      }
      if artifact.Some? {
        checks, stop := RunChecks(contract, w.turns, artifact.value, resources);
      }
    }

    /** `run_attempt`, once its record has been created. */
    method Run(contract: Contract, resources: string, w: World) returns (result: Result<RunResult, Raised>)
      requires |w.turns| == |contract.checks|
      modifies this
      ensures (View(), result) == RunAttempt(contract, resources, old(View()), w)
    {
      hide Execute, WriteOut, FailFinalization, Finalize;
      var artifact, checks, stop, raised := ExecuteRun(contract, resources, w);
      if raised == Some(Interrupted) {
        stop := Some("cancelled");
      } else if raised.Some? && stop.None? {
        stop := Some(raised.value.code);
      }
      var r := RunResult(ReduceOutcome(checks, stop), artifact, checks, stop);
      if w.closing {
        var failure := FailFinal(r);
        return Err(failure);
      }
      var ok := Commit(data.(phase := "record"));
      if !ok {
        var failure := FailFinal(r);
        return Err(failure);
      }
      result := FinalizeRun(contract, resources, r, w.final);
    }
  }

  lemma {:induction false} ChecksStop(contract: Contract, turns: seq<Turn>, artifact: Artifact, resources: string,
                                      s: State, k: nat, n: nat)
    requires k <= n <= |contract.checks| == |turns|
    requires Checks(contract, turns, artifact, resources, s, k).stop.Some?
    ensures Checks(contract, turns, artifact, resources, s, n) == Checks(contract, turns, artifact, resources, s, k)
  {
    if k < n {
      ChecksStop(contract, turns, artifact, resources, s, k, n - 1);
    }
  }
}
