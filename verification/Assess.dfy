/** Observations of one attempt, their reduction to an outcome, and the validator that COMPLETE must pass. */
module Assess {
  import opened Prelude

  datatype Outcome = Complete | Rejected | Unproven | Halted

  /** What supervising one child gave; an absent text stands for Python's None and for "". */
  datatype Process = Process(code: Option<int>, stop: Option<string>, error: Option<string>, confirmed: bool)

  function NormalizeCheck(p: Process, intact: bool): int {
    if !intact || p.error.Some? || p.stop.Some? || !p.confirmed then 2
    else if p.code == Some(0) || p.code == Some(1) || p.code == Some(2) then p.code.value
    else 2
  }

  /** A check normalizes to success exactly when its own exit code was 0 and nothing clouds it. */
  predicate CleanExit(p: Process, code: int) {
    p.code == Some(code) && p.error.None? && p.stop.None? && p.confirmed
  }

  lemma NormalizedExactly(p: Process, intact: bool)
    ensures NormalizeCheck(p, intact) == 0 <==> intact && CleanExit(p, 0)
    ensures NormalizeCheck(p, intact) == 1 <==> intact && CleanExit(p, 1)
    ensures 0 <= NormalizeCheck(p, intact) <= 2
  {
  }

  datatype Check = Check(name: string, command: string)

  datatype Observed = Observed(
    name: string, command: string, process: Process, normalized: int, subject: string, resources: string)

  datatype Artifact = Artifact(digest: string, files: seq<string>, single: bool)

  datatype Contract = Contract(checks: seq<Check>, outputs: seq<string>, single: bool)

  datatype RunResult = RunResult(
    outcome: Outcome, artifact: Option<Artifact>, checks: seq<Observed>, stop: Option<string>)

  function ReduceOutcome(checks: seq<Observed>, stop: Option<string>): Outcome {
    if stop.Some? then Halted
    else if exists c :: c in checks && c.normalized == 1 then Rejected
    else Unproven
  }

  /** `native_assurance_limited`: the only results that may go on to COMPLETE. */
  predicate Limited(r: RunResult) {
    && (r.outcome == Unproven || r.outcome == Complete)
    && r.stop.None? && r.artifact.Some? && r.checks != []
    && forall c :: c in r.checks ==> c.normalized == 0
  }

  /** The record of a run, as far as its assessment reads it; None where a key has not been set. */
  datatype Record = Record(
    phase: string,
    complete: bool,
    result: Option<RunResult>,
    artifact: Option<Option<Artifact>>,
    checks: Option<seq<Observed>>,
    producer: Option<Process>,
    completion: Option<bool>,
    nativeExit: Option<int>,
    pending: bool)   // a child id or an active check is still named

  /** Why an assessment fails: a refusal of its own, or evidence that cannot be read. */
  datatype Fault = Refused(code: string, outcome: Outcome) | Unreadable

  const CHANGED := Refused("record_changed", Halted)
  const INCOMPLETE := Refused("incomplete_checks", Unproven)

  function Identities(checks: seq<Observed>): (ids: seq<Check>)
    ensures |ids| == |checks|
    ensures forall i :: 0 <= i < |ids| ==> ids[i] == Check(checks[i].name, checks[i].command)
  {
    seq(|checks|, i requires 0 <= i < |checks| => Check(checks[i].name, checks[i].command))
  }

  function CheckFault(c: Observed, artifact: Artifact, resources: string, rejected: bool): Option<Fault> {
    if c.subject != artifact.digest || c.resources != resources then Some(CHANGED)
    else if c.normalized != NormalizeCheck(c.process, true) then Some(CHANGED)
    else if !(c.normalized == 0 || (rejected && c.normalized == 1)) then Some(INCOMPLETE)
    else if c.process.code.None? || !c.process.confirmed then Some(CHANGED)
    else None
  }

  function FirstFault(checks: seq<Observed>, artifact: Artifact, resources: string, rejected: bool): Option<Fault> {
    if checks == [] then None
    else
      var fault := CheckFault(checks[0], artifact, resources, rejected);
      if fault.Some? then fault else FirstFault(checks[1..], artifact, resources, rejected)
  }

  predicate ProducerFinished(data: Record, r: RunResult) {
    && data.producer.Some? && data.producer.value.code.Some?
    && NormalizeCheck(data.producer.value, true) == 0
    && data.producer.value.confirmed
    && r.stop.None?
    && data.completion == Some(true)
    && (data.nativeExit.None? || data.nativeExit == Some(0))
  }

  /** `_validate_assessed_outputs` */
  function ValidateOutputs(contract: Contract, r: RunResult, data: Record, resources: string, rejected: bool)
    : Option<Fault> {
    var expected, actual := contract.checks, Identities(r.checks);
    if r.artifact.None? || r.checks == [] then Some(INCOMPLETE)
    else if |actual| < |expected| && actual == expected[..|actual|] then Some(INCOMPLETE)
    else if actual != expected then Some(CHANGED)
    else if r.artifact.value.files != contract.outputs then Some(CHANGED)
    else if r.artifact.value.single != contract.single then Some(CHANGED)
    else if data.checks != Some(r.checks) || data.artifact != Some(r.artifact) then Some(CHANGED)
    else if !ProducerFinished(data, r) then Some(CHANGED)
    else FirstFault(r.checks, r.artifact.value, resources, rejected)
  }

  /**
   * `_assessed_inputs`: the durable record against the caller's result. `evidence` is the verdict on
   * the retained files, which are read only once the record itself has been found consistent.
   */
  function AssessedInputs(contract: Contract, resources: string, r: RunResult, data: Record, evidence: Option<Fault>,
                          rejected: bool): Option<Fault>
  {
    if !(data.complete && data.phase == "finished" && data.result == Some(r) && !data.pending) then Some(CHANGED)
    else
      var provisional := ReduceOutcome(r.checks, r.stop);
      if r.outcome != provisional && !(r.outcome == Complete && provisional == Unproven) then Some(CHANGED)
      else if (r.outcome == Rejected || r.outcome == Halted) && !(rejected && r.outcome == Rejected) then
        Some(Refused(if r.stop.Some? then r.stop.value else "upstream_rejected", r.outcome))
      else
        var fault := ValidateOutputs(contract, r, data, resources, rejected);
        if fault.Some? then fault else evidence
  }

  // ------------------------------------------------------------------ what the validator accepts

  /** Every declared check, in order, with one of these raw exit codes on this very artifact. */
  ghost predicate Checked(contract: Contract, resources: string, r: RunResult, codes: set<int>) {
    && r.artifact.Some? && r.checks != [] && |r.checks| == |contract.checks|
    && forall i :: 0 <= i < |r.checks| ==>
      && Check(r.checks[i].name, r.checks[i].command) == contract.checks[i]
      && (exists code :: code in codes && CleanExit(r.checks[i].process, code) && r.checks[i].normalized == code)
      && r.checks[i].subject == r.artifact.value.digest && r.checks[i].resources == resources
  }

  /** The producer exited 0, was seen to finish, and its outputs are the declared ones. */
  ghost predicate Delivered(contract: Contract, r: RunResult, data: Record) {
    && r.artifact.Some? && r.artifact.value.files == contract.outputs && r.artifact.value.single == contract.single
    && data.producer.Some? && CleanExit(data.producer.value, 0)
    && r.stop.None? && data.completion == Some(true) && (data.nativeExit.None? || data.nativeExit == Some(0))
    && data.checks == Some(r.checks) && data.artifact == Some(r.artifact)
  }

  lemma {:induction false} NoFaultExactly(checks: seq<Observed>, artifact: Artifact, resources: string, rejected: bool)
    ensures FirstFault(checks, artifact, resources, rejected).None? <==>
      forall i :: 0 <= i < |checks| ==> CheckFault(checks[i], artifact, resources, rejected).None?
  {
    hide CheckFault;
    if checks != [] {
      NoFaultExactly(checks[1..], artifact, resources, rejected);
      if FirstFault(checks, artifact, resources, rejected).None? {
        forall i | 0 <= i < |checks| ensures CheckFault(checks[i], artifact, resources, rejected).None? {
          assert i > 0 ==> checks[i] == checks[1..][i - 1];
        }
      } else if CheckFault(checks[0], artifact, resources, rejected).None? {
        var i :| 0 <= i < |checks| - 1 && CheckFault(checks[1..][i], artifact, resources, rejected).Some?;
        assert checks[1..][i] == checks[i + 1];
      }
    }
  }

  lemma CheckFaultExactly(c: Observed, artifact: Artifact, resources: string, rejected: bool)
    ensures CheckFault(c, artifact, resources, rejected).None? <==>
      && c.subject == artifact.digest && c.resources == resources
      && exists code :: code in (if rejected then {0, 1} else {0}) && CleanExit(c.process, code) && c.normalized == code
  {
    NormalizedExactly(c.process, true);
    if CheckFault(c, artifact, resources, rejected).None? {
      assert c.normalized in (if rejected then {0, 1} else {0}) && CleanExit(c.process, c.normalized);
    }
  }

  /** `_validate_assessed_outputs` accepts exactly the complete, cleanly assessed deliveries. */
  lemma ValidateExactly(contract: Contract, r: RunResult, data: Record, resources: string, rejected: bool)
    ensures ValidateOutputs(contract, r, data, resources, rejected).None? <==>
      Checked(contract, resources, r, if rejected then {0, 1} else {0}) && Delivered(contract, r, data)
  {
    hide CheckFault, FirstFault, CleanExit;
    if r.artifact.Some? {
      NoFaultExactly(r.checks, r.artifact.value, resources, rejected);
      forall i | 0 <= i < |r.checks| {
        CheckFaultExactly(r.checks[i], r.artifact.value, resources, rejected);
      }
      if data.producer.Some? {
        NormalizedExactly(data.producer.value, true);
        CleanHasCode(data.producer.value, 0);
      }
      if |r.checks| == |contract.checks| {
        assert (forall i :: 0 <= i < |r.checks| ==> Identities(r.checks)[i] == contract.checks[i])
          <==> Identities(r.checks) == contract.checks;
      }
    }
  }

  lemma CleanHasCode(p: Process, code: int)
    ensures CleanExit(p, code) ==> p.code.Some? && p.confirmed
  {
  }

  /** What passes is a finished record of this very result, and an outcome its checks bear out. */
  lemma AssessedExactly(contract: Contract, resources: string, r: RunResult, data: Record, evidence: Option<Fault>,
                        rejected: bool)
    ensures AssessedInputs(contract, resources, r, data, evidence, rejected).None? <==>
      && data.complete && data.phase == "finished" && data.result == Some(r) && !data.pending
      && (if exists c :: c in r.checks && c.normalized == 1 then rejected && r.outcome == Rejected
          else r.outcome == Unproven || r.outcome == Complete)
      && Checked(contract, resources, r, if rejected then {0, 1} else {0}) && Delivered(contract, r, data)
      && evidence.None?
  {
    hide ValidateOutputs, Checked;
    ValidateExactly(contract, r, data, resources, rejected);
  }

  // ------------------------------------------------------------------ which fault is found

  /** The result says less than was declared: no artifact, no checks, or only the first of them. */
  predicate CutShort(contract: Contract, r: RunResult) {
    r.artifact.None? || r.checks == [] || Identities(r.checks) < contract.checks
  }

  /** A check of these very bytes whose normalized code is that of its process. */
  predicate Honest(c: Observed, artifact: Artifact, resources: string) {
    c.subject == artifact.digest && c.resources == resources && c.normalized == NormalizeCheck(c.process, true)
  }

  predicate Allowed(c: Observed, rejected: bool) { c.normalized == 0 || (rejected && c.normalized == 1) }

  predicate AllHonest(checks: seq<Observed>, artifact: Artifact, resources: string) {
    forall c :: c in checks ==> Honest(c, artifact, resources)
  }

  predicate AllAllowed(checks: seq<Observed>, rejected: bool) {
    forall c :: c in checks ==> Allowed(c, rejected)
  }

  lemma CheckFaultKind(c: Observed, artifact: Artifact, resources: string, rejected: bool)
    ensures var fault, honest, allowed :=
              CheckFault(c, artifact, resources, rejected), Honest(c, artifact, resources), Allowed(c, rejected);
      && (honest ==> fault == if allowed then None else Some(INCOMPLETE))
      && (allowed ==> fault == if honest then None else Some(CHANGED))
  {
    NormalizedExactly(c.process, true);
  }

  lemma {:induction false} FirstFaultKind(checks: seq<Observed>, artifact: Artifact, resources: string, rejected: bool)
    ensures var fault, honest, allowed := FirstFault(checks, artifact, resources, rejected),
              AllHonest(checks, artifact, resources), AllAllowed(checks, rejected);
      && (honest ==> fault == if allowed then None else Some(INCOMPLETE))
      && (allowed ==> fault == if honest then None else Some(CHANGED))
  {
    hide CheckFault, Honest, Allowed;
    if checks != [] {
      CheckFaultKind(checks[0], artifact, resources, rejected);
      FirstFaultKind(checks[1..], artifact, resources, rejected);
      assert checks == [checks[0]] + checks[1..];
    }
  }

  /**
   * Which fault the validator finds: a result cut short, or with an honest check that did not pass, is
   * incomplete; any other disagreement with the declaration or the record means that something changed.
   */
  lemma FaultKinds(contract: Contract, r: RunResult, data: Record, resources: string, rejected: bool)
    ensures var fault, cut := ValidateOutputs(contract, r, data, resources, rejected), CutShort(contract, r);
      && (cut ==> fault == Some(INCOMPLETE))
      && (!cut && !(Identities(r.checks) == contract.checks && Delivered(contract, r, data)) ==> fault == Some(CHANGED))
      && (!cut && Identities(r.checks) == contract.checks && Delivered(contract, r, data) ==>
            var honest, allowed := AllHonest(r.checks, r.artifact.value, resources), AllAllowed(r.checks, rejected);
            && (honest ==> fault == if allowed then None else Some(INCOMPLETE))
            && (allowed ==> fault == if honest then None else Some(CHANGED)))
  {
    hide FirstFault, CheckFault, AllHonest, AllAllowed;
    if r.artifact.Some? {
      FirstFaultKind(r.checks, r.artifact.value, resources, rejected);
    }
    if data.producer.Some? {
      NormalizedExactly(data.producer.value, true);
    }
  }

  /** A record that disagrees with the result has changed; a refused outcome is passed on under its own stop reason. */
  lemma RecordFaults(contract: Contract, resources: string, r: RunResult, data: Record, evidence: Option<Fault>,
                     rejected: bool)
    ensures var fault := AssessedInputs(contract, resources, r, data, evidence, rejected);
      var same := data.complete && data.phase == "finished" && data.result == Some(r) && !data.pending;
      var failed := exists c :: c in r.checks && c.normalized == 1;
      var told := (r.outcome == Halted <==> r.stop.Some?) && (r.outcome == Rejected <==> r.stop.None? && failed);
      && (!same || !told ==> fault == Some(CHANGED))
      && (same && told && r.outcome == Halted ==> fault == Some(Refused(r.stop.value, Halted)))
      && (same && told && r.outcome == Rejected && !rejected ==> fault == Some(Refused("upstream_rejected", Rejected)))
  {
    hide ValidateOutputs;
  }
}
