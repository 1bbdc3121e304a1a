/** COMPLETE is earned: what a returned COMPLETE and a raised error each say about the durable record. */
module AttemptProofs {
  import opened Prelude
  import opened Assess
  import opened Attempt

  /** A durable record a reader would take for a completed run. */
  predicate ShowsComplete(disk: Record) {
    disk.complete && disk.result.Some? && disk.result.value.outcome == Complete
  }

  /** A durable record of this very failure. */
  predicate ShowsFailure(disk: Record, error: Raised) {
    && !disk.complete && disk.phase == "finalization_failed" && disk.result.Some?
    && disk.result.value.outcome == error.outcome
    && disk.result.value.stop == if error.outcome == Halted then Some(error.code) else None
  }

  // ------------------------------------------------------------------ finalization

  lemma FailureIsDurable(s: State, r: RunResult)
    ensures var (after, raised) := FailFinalization(s, r);
      !raised.lost ==> ShowsFailure(after.disk, raised)
  {
  }

  lemma FinishTells(s: State, r: RunResult, t: Transcript)
    ensures var (after, raised) := Finish(s, r, t);
      && (raised.None? ==> after.data == FinishedRecord(s.data, r) && after.disk == after.data)
      && (raised.Some? && !raised.value.lost ==> ShowsFailure(after.disk, raised.value))
  {
  }

  /**
   * Whatever the writes do: a returned result is the durable one, COMPLETE only when the record on
   * disk passes the validator; a raised error leaves no completed record unless it says it may have.
   */
  lemma FinalizeTells(contract: Contract, resources: string, s: State, r: RunResult, w: FinalWorld)
    requires r.outcome != Complete
    ensures var (after, result) := Finalize(contract, resources, s, r, w);
      && (result.Ok? ==>
            && after.disk.complete && after.disk.phase == "finished" && after.disk.result == Some(result.value)
            && (if Limited(r) then
                  && result.value == r.(outcome := Complete)
                  && AssessedInputs(contract, resources, result.value, after.disk, w.again, false).None?
                else result.value == r))
      && (result.Err? && !result.error.lost ==> ShowsFailure(after.disk, result.error))
  {
    hide Finish, FailFinalization, AssessedInputs, Limited, WriteOut;
    FinishTells(s, r, w.first);
    var (one, stopped) := Finish(s, r, w.first);
    if stopped.None? && Limited(r) {
      var fault := AssessedInputs(contract, resources, r, one.disk, w.evidence, false);
      FailureIsDurable(one, r);
      if fault.Some? && fault.value.Refused? {
        UpdateTells(one, RefusedRecord(one.data, r, fault.value));
        FailureIsDurable(Update(one, RefusedRecord(one.data, r, fault.value)).0, RefusedResult(r, fault.value));
      }
      var completed := r.(outcome := Complete);
      FinishTells(one, completed, w.second);
      FailureIsDurable(Finish(one, completed, w.second).0, completed);
    }
  }

  lemma UpdateTells(s: State, data: Record)
    ensures var (after, ok) := Update(s, data);
      && after.data == data && (ok ==> after.disk == data)
      && (s.writes == [] ==> ok && after.writes == [])
  {
  }

  lemma AttemptTells(contract: Contract, resources: string, s: State, w: World)
    requires |w.turns| == |contract.checks|
    ensures var (after, result) := RunAttempt(contract, resources, s, w);
      var r := ResultOf(Execute(contract, resources, s, w));
      && (result.Ok? ==>
            && after.disk.complete && after.disk.phase == "finished" && after.disk.result == Some(result.value)
            && (if Limited(r) then
                  && result.value == r.(outcome := Complete)
                  && AssessedInputs(contract, resources, result.value, after.disk, w.final.again, false).None?
                else result.value == r && r.outcome != Complete))
      && (result.Err? && !result.error.lost ==> ShowsFailure(after.disk, result.error))
  {
    hide Execute, Finalize, FailFinalization, AssessedInputs, WriteOut;
    var b := Execute(contract, resources, s, w);
    FailureIsDurable(b.state, ResultOf(b));
    var recorded := Update(b.state, b.state.data.(phase := "record")).0;
    FailureIsDurable(recorded, ResultOf(b));
    FinalizeTells(contract, resources, recorded, ResultOf(b), w.final);
  }

  /** Every observation of this result was made of some turn, for some declared check. */
  ghost predicate AllObserved(r: RunResult, resources: string) {
    forall c :: c in r.checks ==> Made(c, resources)
  }

  ghost predicate Made(c: Observed, resources: string) {
    exists check, turn, artifact :: c == ObservedOf(check, turn, artifact, resources)
  }

  /**
   * What a returned outcome says: HALTED exactly with a stop reason, REJECTED exactly without one and
   * with a failed check; without a stop reason all checks have run, or none.
   */
  lemma OutcomeTells(contract: Contract, resources: string, s: State, w: World)
    requires |w.turns| == |contract.checks| && RunAttempt(contract, resources, s, w).1.Ok?
    ensures var x := RunAttempt(contract, resources, s, w).1.value;
      && (x.outcome == Halted <==> x.stop.Some?)
      && (x.outcome == Rejected <==> x.stop.None? && exists c :: c in x.checks && c.normalized == 1)
      && (x.stop.None? && x.checks != [] ==> |x.checks| == |contract.checks| && x.artifact.Some?)
      && AllObserved(x, resources)
  {
    hide RunAttempt, Execute, AssessedInputs, Checks;
    AttemptTells(contract, resources, s, w);
    ExecuteTells(contract, resources, s, w);
  }

  lemma ExecuteTells(contract: Contract, resources: string, s: State, w: World)
    requires |w.turns| == |contract.checks|
    ensures var r := ResultOf(Execute(contract, resources, s, w));
      && (r.stop.None? && r.checks != [] ==> |r.checks| == |contract.checks| && r.artifact.Some?)
      && AllObserved(r, resources)
  {
    hide Produce, StopReason, Checks, Update, ObservedOf;
    var (produced, raised) := Produce(s, w);
    var b := Capture(produced, w, StopReason(w));
    if raised.None? && b.raised.None? && b.stop.None? && b.artifact.Some? {
      ChecksSeen(contract, w.turns, b.artifact.value, resources, b.state, |contract.checks|);
    }
  }

  /** If an attempt raises, its durable record shows that error, not COMPLETE, unless the error says otherwise. */
  lemma RaisedIsNotComplete(contract: Contract, resources: string, s: State, w: World)
    requires |w.turns| == |contract.checks|
    ensures var (after, result) := RunAttempt(contract, resources, s, w);
      && (result.Err? && ShowsComplete(after.disk) ==> result.error.lost)
      && (result.Err? && !result.error.lost ==> ShowsFailure(after.disk, result.error))
  {
    hide RunAttempt, Execute, AssessedInputs, Limited;
    AttemptTells(contract, resources, s, w);
  }

  /** It can: the completing write fails after replacing the file, and so does every repair of it. */
  lemma LostMayShowComplete(contract: Contract, resources: string, s: State, r: RunResult, w: FinalWorld)
    requires s.writes == [Written, FailedLate, KeptOld] && Limited(r) && w.first == Inspected && w.second == Inspected
    requires AssessedInputs(contract, resources, r, FinishedRecord(s.data, r), w.evidence, false).None?
    ensures var (after, result) := Finalize(contract, resources, s, r, w);
      result.Err? && result.error.lost && ShowsComplete(after.disk)
  {
    hide AssessedInputs, Limited;
    var one := State(FinishedRecord(s.data, r), FinishedRecord(s.data, r), [FailedLate, KeptOld]);
    assert Finish(s, r, w.first) == (one, None);
    var completed := r.(outcome := Complete);
    var two := State(FinishedRecord(one.data, completed), FinishedRecord(one.data, completed), [KeptOld]);
    assert Update(one, FinishedRecord(one.data, completed)) == (two, false);
    assert Finish(one, completed, w.second).1 == Some(Raised("finalization_failure", Halted, true));
    assert Finish(one, completed, w.second).0.disk == two.disk;
  }

  // ------------------------------------------------------------------ what the checks show

  predicate TurnClean(t: Turn) {
    t.before && t.after && CleanExit(t.process, 0)
  }

  lemma {:induction false} ChecksSeen(contract: Contract, turns: seq<Turn>, artifact: Artifact, resources: string,
                                      s: State, k: nat)
    requires k <= |contract.checks| == |turns|
    ensures var r := Checks(contract, turns, artifact, resources, s, k);
      && |r.seen| <= k
      && (forall i :: 0 <= i < |r.seen| ==> r.seen[i] == ObservedOf(contract.checks[i], turns[i], artifact, resources))
      && (r.stop.None? ==> |r.seen| == k)
  {
    hide Launch, ObservedOf, StopOf, Update;
    if k > 0 {
      ChecksSeen(contract, turns, artifact, resources, s, k - 1);
    }
  }

  lemma PassedTurn(check: Check, t: Turn, artifact: Artifact, resources: string)
    ensures ObservedOf(check, t, artifact, resources).normalized == 0 <==> TurnClean(t)
  {
  }

  /** The world an attempt needs in order to be COMPLETE, apart from the writes and the final validation. */
  predicate ProducerClean(w: World) {
    CleanExit(w.producer, 0) && w.completion && !w.protocolError && (w.nativeExit.None? || w.nativeExit == Some(0))
  }

  lemma StopReasonExactly(w: World)
    ensures StopReason(w).None? <==> ProducerClean(w)
  {
  }

  /** The observations of a result that goes on to COMPLETE. */
  lemma LimitedWorld(contract: Contract, resources: string, s: State, w: World)
    requires |w.turns| == |contract.checks|
    requires Limited(ResultOf(Execute(contract, resources, s, w)))
    ensures var b := Execute(contract, resources, s, w);
      && ProducerClean(w) && b.raised.None? && b.artifact.Some? && w.captured == Ok(b.artifact)
      && |b.checks| == |contract.checks|
      && forall i :: 0 <= i < |b.checks| ==>
        TurnClean(w.turns[i]) && b.checks[i] == ObservedOf(contract.checks[i], w.turns[i], b.artifact.value, resources)
  {
    hide Produce, Checks, ObservedOf, TurnClean, StopReason, ProducerClean, Update;
    StopReasonExactly(w);
    var b := Execute(contract, resources, s, w);
    var produced := Produce(s, w).0;
    var c := Capture(produced, w, StopReason(w));
    ChecksSeen(contract, w.turns, b.artifact.value, resources, c.state, |contract.checks|);
    forall i | 0 <= i < |b.checks|
      ensures TurnClean(w.turns[i])
      ensures b.checks[i] == ObservedOf(contract.checks[i], w.turns[i], b.artifact.value, resources)
    {
      assert b.checks[i] in b.checks;
      PassedTurn(contract.checks[i], w.turns[i], b.artifact.value, resources);
    }
  }

  /**
   * COMPLETE is earned, whatever the writes do: the producer finished cleanly, the checks are the
   * declared ones in order, each exiting 0 on the captured artifact with its resources intact before
   * and after, and the durable record is this result and passed the validator.
   */
  lemma CompleteIsEarned(contract: Contract, resources: string, s: State, w: World)
    requires |w.turns| == |contract.checks|
    requires var result := RunAttempt(contract, resources, s, w).1; result.Ok? && result.value.outcome == Complete
    ensures var (after, result) := RunAttempt(contract, resources, s, w);
      var x := result.value;
      && ProducerClean(w)
      && x.artifact.Some? && w.captured == Ok(x.artifact)
      && x.artifact.value.files == contract.outputs
      && x.checks != [] && |x.checks| == |contract.checks|
      && (forall i :: 0 <= i < |x.checks| ==>
            && TurnClean(w.turns[i])
            && x.checks[i] == ObservedOf(contract.checks[i], w.turns[i], x.artifact.value, resources))
      && ShowsComplete(after.disk) && after.disk.result == Some(x) && after.disk.checks == Some(x.checks)
      && AssessedInputs(contract, resources, x, after.disk, w.final.again, false).None?
  {
    hide RunAttempt, Execute, AssessedInputs, Checked, ObservedOf, TurnClean, ProducerClean;
    AttemptTells(contract, resources, s, w);
    LimitedWorld(contract, resources, s, w);
    var (after, result) := RunAttempt(contract, resources, s, w);
    AssessedExactly(contract, resources, result.value, after.disk, w.final.again, false);
  }

  // ------------------------------------------------------------------ and what earns it

  /** Nothing raised, nothing late, everything clean, up to the last check. */
  predicate RunsCleanly(contract: Contract, w: World) {
    && w.setup.None? && w.request.None? && w.supervision.None? && ProducerClean(w) && w.expired.None?
    && w.captured.Ok? && w.captured.value.Some?
    && w.exports.None? && contract.checks != [] && |w.turns| == |contract.checks|
    && (forall i :: 0 <= i < |w.turns| ==> TurnCompletes(w.turns[i]))
  }

  /** The captured outputs are the declared ones. */
  predicate Declared(contract: Contract, artifact: Artifact) {
    artifact.files == contract.outputs && artifact.single == contract.single
  }

  /** A clean run, with the declared outputs, that finalization finds as it left it. */
  predicate WorldClean(contract: Contract, w: World) {
    && RunsCleanly(contract, w) && Declared(contract, w.captured.value.value)
    && !w.closing && w.final == FinalWorld(Inspected, None, Inspected, None)
  }

  predicate TurnCompletes(t: Turn) {
    TurnClean(t) && t.early.None? && t.middle.None? && t.late.None? && !t.over
  }

  lemma TurnRuns(r: Ran, check: Check, t: Turn, artifact: Artifact, resources: string)
    requires r.state.writes == [] && TurnCompletes(t)
    ensures var n := CheckOne(r, check, t, artifact, resources);
      && n.stop.None? && n.state.writes == []
      && n.seen == r.seen + [ObservedOf(check, t, artifact, resources)]
      && n.state.data == r.state.data.(phase := "checks", pending := true, checks := Some(n.seen))
  {
  }

  lemma {:induction false} ChecksRun(contract: Contract, turns: seq<Turn>, artifact: Artifact, resources: string,
                                     s: State, k: nat)
    requires k <= |contract.checks| == |turns| && s.writes == []
    requires forall i :: 0 <= i < |turns| ==> TurnCompletes(turns[i])
    ensures var r := Checks(contract, turns, artifact, resources, s, k);
      && r.stop.None? && r.state.writes == [] && |r.seen| == k
      && (k > 0 ==> r.state.data == s.data.(phase := "checks", pending := true, checks := Some(r.seen)))
      && (k == 0 ==> r.state.data == s.data)
  {
    hide CheckOne, TurnCompletes;
    if k > 0 {
      ChecksRun(contract, turns, artifact, resources, s, k - 1);
      var r := Checks(contract, turns, artifact, resources, s, k - 1);
      TurnRuns(r, contract.checks[k - 1], turns[k - 1], artifact, resources);
    }
  }

  lemma ProducesCleanly(s: State, w: World)
    requires s.writes == [] && w.setup.None? && w.request.None? && w.supervision.None?
    ensures var (after, raised) := Produce(s, w);
      && raised.None? && after.writes == []
      && after.data == s.data.(phase := "execution", pending := true, producer := Some(w.producer),
                               completion := Some(w.completion), nativeExit := w.nativeExit)
  {
  }

  lemma ExecutesCleanly(contract: Contract, resources: string, s: State, w: World)
    requires s.writes == [] && RunsCleanly(contract, w)
    ensures var b := Execute(contract, resources, s, w);
      && b.raised.None? && b.stop.None? && b.state.writes == []
      && Ok(b.artifact) == w.captured && |b.checks| == |contract.checks|
      && b.state.data == s.data.(phase := "checks", pending := true, producer := Some(w.producer),
           completion := Some(true), nativeExit := w.nativeExit, artifact := Some(b.artifact), checks := Some(b.checks))
  {
    hide Produce, Checks, TurnCompletes, StopReason;
    ProducesCleanly(s, w);
    StopReasonExactly(w);
    var produced := Produce(s, w).0;
    var c := Capture(produced, w, None);
    ChecksRun(contract, w.turns, w.captured.value.value, resources, c.state, |contract.checks|);
  }

  /** What finalizing a result of limited assurance comes to, when writes succeed and its record is consistent. */
  function LimitedEnd(contract: Contract, r: RunResult, w: FinalWorld): Result<RunResult, Raised>
    requires r.artifact.Some?
  {
    var failure := Err(Raised("finalization_failure", Halted, false));
    if w.first != Inspected then failure
    else if !Declared(contract, r.artifact.value) then Err(Raised("record_changed", Halted, false))
    else
      match w.evidence
      case Some(Unreadable) => failure
      case Some(Refused(code, outcome)) => Err(Raised(code, outcome, false))
      case None =>
        if w.second == Inspected && w.again.None? then Ok(r.(outcome := Complete)) else failure
  }

  lemma FinalizesAs(contract: Contract, resources: string, s: State, r: RunResult, w: FinalWorld)
    requires s.writes == [] && Limited(r) && r.outcome == Unproven
    requires Checked(contract, resources, r, {0}) && Produced(r, s.data)
    ensures Finalize(contract, resources, s, r, w).1 == LimitedEnd(contract, r, w)
  {
    hide AssessedInputs, Checked, Limited, Declared, Produced;
    var one := FinishedRecord(s.data, r);
    var completed := r.(outcome := Complete);
    var two := FinishedRecord(one, completed);
    LimitedHasArtifact(r);
    SameChecked(contract, resources, r, completed);
    SameProduced(s.data, r, completed);
    AssessedAs(contract, resources, r, one, w.evidence);
    AssessedAs(contract, resources, completed, two, w.again);
    assert w.first == Inspected ==> Finish(s, r, w.first) == (State(one, one, []), None);
    assert w.second == Inspected ==> Finish(State(one, one, []), completed, w.second) == (State(two, two, []), None);
  }

  lemma LimitedHasArtifact(r: RunResult)
    requires Limited(r)
    ensures r.artifact.Some?
    ensures forall t: Transcript :: TranscriptFails(t, r) <==> t != Inspected
    ensures forall t: Transcript :: TranscriptFails(t, r.(outcome := Complete)) <==> t != Inspected
  {
  }

  /** The record holds what a clean producer and clean checks left of this result. */
  ghost predicate Produced(r: RunResult, data: Record) {
    && data.producer.Some? && CleanExit(data.producer.value, 0) && r.stop.None? && data.completion == Some(true)
    && (data.nativeExit.None? || data.nativeExit == Some(0))
    && data.checks == Some(r.checks) && data.artifact == Some(r.artifact)
  }

  lemma SameProduced(data: Record, r: RunResult, x: RunResult)
    requires Produced(r, data) && r.artifact == x.artifact && r.checks == x.checks && r.stop == x.stop
    ensures Produced(r, FinishedRecord(data, r)) && Produced(x, FinishedRecord(FinishedRecord(data, r), x))
  {
  }

  /** With such a record an assessment depends on the outputs, and then on the evidence. */
  lemma AssessedAs(contract: Contract, resources: string, r: RunResult, data: Record, evidence: Option<Fault>)
    requires r.outcome == Unproven || r.outcome == Complete
    requires data.complete && data.phase == "finished" && data.result == Some(r) && !data.pending
    requires Checked(contract, resources, r, {0}) && Produced(r, data)
    ensures AssessedInputs(contract, resources, r, data, evidence, false) ==
      if Declared(contract, r.artifact.value) then evidence else Some(CHANGED)
  {
    hide Checked, Produced;
    CheckedShape(contract, resources, r);
    ProducedStops(r, data);
    hide FirstFault, ProducerFinished;
    if Declared(contract, r.artifact.value) {
      assert Delivered(contract, r, data) by { DeliveredWhen(contract, r, data); }
      hide Delivered;
      ValidateExactly(contract, r, data, resources, false);
    }
  }

  lemma DeliveredWhen(contract: Contract, r: RunResult, data: Record)
    requires Produced(r, data) && r.artifact.Some? && Declared(contract, r.artifact.value)
    ensures Delivered(contract, r, data)
  {
  }

  lemma ProducedStops(r: RunResult, data: Record)
    requires Produced(r, data)
    ensures r.stop.None?
  {
  }

  lemma CheckedShape(contract: Contract, resources: string, r: RunResult)
    requires Checked(contract, resources, r, {0})
    ensures r.artifact.Some? && r.checks != [] && Identities(r.checks) == contract.checks
    ensures !exists c :: c in r.checks && c.normalized == 1
  {
    forall c | c in r.checks ensures c.normalized != 1 {
      var i :| 0 <= i < |r.checks| && r.checks[i] == c;
    }
  }

  lemma SameChecked(contract: Contract, resources: string, r: RunResult, x: RunResult)
    requires r.artifact == x.artifact && r.checks == x.checks && Checked(contract, resources, r, {0})
    ensures Checked(contract, resources, x, {0})
  {
  }

  /** A run that stays clean ends as finalization finds it. */
  lemma CleanRunEnds(contract: Contract, resources: string, s: State, w: World)
    requires s.writes == [] && RunsCleanly(contract, w)
    ensures var r, result := ResultOf(Execute(contract, resources, s, w)), RunAttempt(contract, resources, s, w).1;
      && Limited(r) && r.artifact == w.captured.value
      && result == if w.closing then Err(Raised("finalization_failure", Halted, false))
                   else LimitedEnd(contract, r, w.final)
  {
    hide Execute, Finalize, ObservedOf, TurnClean, Checked, Limited, Checks, Produce, Capture, LimitedEnd, Produced;
    ExecutesCleanly(contract, resources, s, w);
    var b := Execute(contract, resources, s, w);
    var r := ResultOf(b);
    Observations(contract, resources, s, w);
    ReadyToFinalize(contract, resources, r);
    var recorded := Update(b.state, b.state.data.(phase := "record"));
    assert recorded.1 && recorded.0.writes == [] && recorded.0.data == b.state.data.(phase := "record");
    assert Produced(r, recorded.0.data) by { CleanIsProduced(r, recorded.0.data, w); }
    FinalizesAs(contract, resources, recorded.0, r, w.final);
  }

  lemma CleanIsProduced(r: RunResult, data: Record, w: World)
    requires ProducerClean(w) && r.stop.None?
    requires data.producer == Some(w.producer) && data.completion == Some(true) && data.nativeExit == w.nativeExit
    requires data.checks == Some(r.checks) && data.artifact == Some(r.artifact)
    ensures Produced(r, data)
  {
  }

  /** The observations a clean attempt has made. */
  lemma Observations(contract: Contract, resources: string, s: State, w: World)
    requires s.writes == [] && RunsCleanly(contract, w)
    ensures var b := Execute(contract, resources, s, w);
      && b.artifact.Some? && |b.checks| == |contract.checks| && ResultOf(b).stop.None?
      && forall i :: 0 <= i < |b.checks| ==>
        PassedObservation(b.checks[i], contract.checks[i], b.artifact.value, resources)
  {
    hide Produce, ObservedOf, Checks, Capture, StopReason;
    ExecutesCleanly(contract, resources, s, w);
    StopReasonExactly(w);
    var b := Execute(contract, resources, s, w);
    var c := Capture(Produce(s, w).0, w, None);
    CaptureKeeps(Produce(s, w).0, w);
    ProducesCleanly(s, w);
    ChecksSeen(contract, w.turns, w.captured.value.value, resources, c.state, |contract.checks|);
    var artifact := b.artifact.value;
    forall i | 0 <= i < |b.checks| ensures PassedObservation(b.checks[i], contract.checks[i], artifact, resources) {
      TurnPasses(contract.checks[i], w.turns[i], artifact, resources);
    }
  }

  lemma CaptureKeeps(s: State, w: World)
    requires w.captured.Ok? && w.captured.value.Some?
    ensures var b := Capture(s, w, None); b.artifact.Some? ==> Ok(b.artifact) == w.captured
  {
  }

  predicate PassedObservation(o: Observed, check: Check, artifact: Artifact, resources: string) {
    && Check(o.name, o.command) == check && CleanExit(o.process, 0) && o.normalized == 0
    && o.subject == artifact.digest && o.resources == resources
  }

  lemma TurnPasses(check: Check, t: Turn, artifact: Artifact, resources: string)
    requires TurnCompletes(t)
    ensures PassedObservation(ObservedOf(check, t, artifact, resources), check, artifact, resources)
  {
  }

  lemma ReadyToFinalize(contract: Contract, resources: string, r: RunResult)
    requires r.artifact.Some? && r.stop.None? && r.checks != [] && |r.checks| == |contract.checks|
    requires r.outcome == ReduceOutcome(r.checks, r.stop)
    requires forall i :: 0 <= i < |r.checks| ==>
      PassedObservation(r.checks[i], contract.checks[i], r.artifact.value, resources)
    ensures Limited(r) && r.outcome == Unproven && Checked(contract, resources, r, {0})
  {
  }

  // ------------------------------------------------------------------ exactly

  lemma {:induction false} ChecksNeed(contract: Contract, turns: seq<Turn>, artifact: Artifact, resources: string,
                                      s: State, k: nat)
    requires k <= |contract.checks| == |turns|
    requires Checks(contract, turns, artifact, resources, s, k).stop.None?
    ensures forall i :: 0 <= i < k && TurnClean(turns[i]) ==> TurnCompletes(turns[i])
  {
    hide Update;
    if k > 0 {
      ChecksNeed(contract, turns, artifact, resources, s, k - 1);
    }
  }

  lemma ExecuteNeeds(contract: Contract, resources: string, s: State, w: World)
    requires |w.turns| == |contract.checks|
    requires Limited(ResultOf(Execute(contract, resources, s, w)))
    ensures w.setup.None? && w.request.None? && w.supervision.None? && w.expired.None? && w.exports.None?
    ensures forall i :: 0 <= i < |w.turns| ==> TurnCompletes(w.turns[i])
  {
    hide Checks, ProducerClean, Update, TurnCompletes, TurnClean, ObservedOf;
    LimitedWorld(contract, resources, s, w);
    StopReasonExactly(w);
    ProducerConfirmed(w);
    var b := Capture(Produce(s, w).0, w, None);
    ChecksNeed(contract, w.turns, b.artifact.value, resources, b.state, |contract.checks|);
  }

  lemma ProducerConfirmed(w: World)
    ensures ProducerClean(w) ==> w.producer.confirmed
  {
  }

  /** Only a run that stays clean gives a result of limited assurance. */
  lemma LimitedExactly(contract: Contract, resources: string, s: State, w: World)
    requires s.writes == [] && |w.turns| == |contract.checks|
    ensures Limited(ResultOf(Execute(contract, resources, s, w))) <==> RunsCleanly(contract, w)
  {
    hide Execute, Limited, TurnCompletes, ProducerClean;
    if RunsCleanly(contract, w) {
      CleanRunEnds(contract, resources, s, w);
    } else if Limited(ResultOf(Execute(contract, resources, s, w))) {
      ExecuteNeeds(contract, resources, s, w);
      LimitedWorld(contract, resources, s, w);
      LimitedHasChecks(ResultOf(Execute(contract, resources, s, w)));
    }
  }

  lemma LimitedHasChecks(r: RunResult)
    requires Limited(r)
    ensures r.checks != []
  {
  }

  /** Any other result is returned as it is, unless the transcript cannot be closed or read. */
  lemma OtherRunEnds(contract: Contract, resources: string, s: State, w: World)
    requires s.writes == [] && |w.turns| == |contract.checks| && !RunsCleanly(contract, w)
    ensures var b := Execute(contract, resources, s, w);
      b.state.writes == [] &&
      RunAttempt(contract, resources, s, w).1 ==
      if w.closing || w.final.first == Unusable then Err(Raised("finalization_failure", Halted, false))
      else Ok(ResultOf(b))
  {
    hide Execute, Limited, RunsCleanly, AssessedInputs;
    LimitedExactly(contract, resources, s, w);
    StopsAtFirst(contract, resources, s, w);
    var r := ResultOf(Execute(contract, resources, s, w));
    assert r.outcome != Complete by { NotYetComplete(Execute(contract, resources, s, w)); }
  }

  lemma NotYetComplete(b: Body)
    ensures ResultOf(b).outcome != Complete
  {
  }

  lemma FinalizeNeeds(contract: Contract, resources: string, s: State, r: RunResult, w: FinalWorld)
    requires Limited(r) && Finalize(contract, resources, s, r, w).1.Ok?
    ensures w == FinalWorld(Inspected, None, Inspected, None)
  {
    hide FailFinalization, WriteOut, ValidateOutputs, ReduceOutcome;
  }

  /** With writes that succeed, COMPLETE is returned exactly in a clean world. */
  lemma CompletesExactly(contract: Contract, resources: string, s: State, w: World)
    requires s.writes == [] && |w.turns| == |contract.checks|
    ensures var result := RunAttempt(contract, resources, s, w).1;
      (result.Ok? && result.value.outcome == Complete) <==> WorldClean(contract, w)
  {
    hide Execute, Finalize, ObservedOf, TurnClean, TurnCompletes, Checked, Limited, ProducerClean, AssessedInputs,
        WriteOut, FailFinalization;
    if WorldClean(contract, w) {
      CleanRunEnds(contract, resources, s, w);
    } else {
      var b := Execute(contract, resources, s, w);
      var (after, result) := RunAttempt(contract, resources, s, w);
      if result.Ok? && result.value.outcome == Complete {
        CompleteIsEarned(contract, resources, s, w);
        AttemptTells(contract, resources, s, w);
        ExecuteNeeds(contract, resources, s, w);
        var recorded := Update(b.state, b.state.data.(phase := "record")).0;
        FinalizeNeeds(contract, resources, recorded, ResultOf(b), w.final);
        AssessedExactly(contract, resources, result.value, after.disk, w.final.again, false);
      }
    }
  }

  // ------------------------------------------------------------------ failed writes

  /** Between these states every write succeeded. */
  ghost predicate WroteAll(before: seq<Write>, after: seq<Write>) {
    |after| <= |before| && before[|before| - |after|..] == after
    && forall i :: 0 <= i < |before| - |after| ==> before[i] == Written
  }

  lemma WroteBoth(a: seq<Write>, b: seq<Write>, c: seq<Write>)
    requires WroteAll(a, b) && WroteAll(b, c)
    ensures WroteAll(a, c)
  {
    var n := |a| - |b|;
    assert forall i :: n <= i < |a| ==> a[i] == a[n..][i - n];
    assert a[|a| - |c|..] == a[n..][|b| - |c|..];
  }

  lemma WroteNothing(a: seq<Write>)
    ensures WroteAll(a, a)
  {
  }

  /** A record write: only one that is done reports so, and only one that keeps the old file leaves it there. */
  lemma UpdateExactly(s: State, data: Record)
    ensures var (after, ok) := Update(s, data);
      && (ok <==> s.writes == [] || s.writes[0] == Written) && after.data == data
      && after.disk == (if s.writes != [] && s.writes[0] == KeptOld then s.disk else data)
      && after.writes == if s.writes == [] then [] else s.writes[1..]
  {
  }

  lemma UpdateWrote(s: State, data: Record)
    ensures var (after, ok) := Update(s, data); ok ==> WroteAll(s.writes, after.writes)
  {
  }

  lemma ProduceWrote(s: State, w: World)
    ensures var (after, raised) := Produce(s, w); raised.None? ==> WroteAll(s.writes, after.writes)
  {
    hide Update, WroteAll;
    var (after, raised) := Produce(s, w);
    if raised.None? {
      var one := Update(s, s.data.(phase := "preflight")).0;
      var two := Update(one, one.data.(phase := "execution")).0;
      var three := Update(two, two.data.(pending := true)).0;
      var data :=
        three.data.(producer := Some(w.producer), completion := Some(w.completion), nativeExit := w.nativeExit);
      UpdateWrote(s, s.data.(phase := "preflight"));
      UpdateWrote(one, one.data.(phase := "execution"));
      UpdateWrote(two, two.data.(pending := true));
      UpdateWrote(three, data);
      WroteBoth(s.writes, one.writes, two.writes);
      WroteBoth(s.writes, two.writes, three.writes);
      WroteBoth(s.writes, three.writes, Update(three, data).0.writes);
    }
  }

  lemma CaptureWrote(s: State, w: World, stop: Option<string>)
    ensures var b := Capture(s, w, stop); b.raised.None? ==> WroteAll(s.writes, b.state.writes)
  {
    hide Update, WroteAll;
    WroteNothing(s.writes);
    var one := Update(s, s.data.(phase := "capture")).0;
    UpdateWrote(s, s.data.(phase := "capture"));
    if w.captured.Ok? {
      var data := one.data.(artifact := Some(w.captured.value));
      UpdateWrote(one, data);
      if Update(s, s.data.(phase := "capture")).1 && Update(one, data).1 {
        WroteBoth(s.writes, one.writes, Update(one, data).0.writes);
      }
    }
  }

  lemma LaunchWrote(s: State, t: Turn)
    ensures var (after, fault) := Launch(s, t); fault.None? ==> WroteAll(s.writes, after.writes)
  {
    hide Update, WroteAll;
    WroteNothing(s.writes);
    var data := s.data.(phase := "checks", pending := true);
    var active := Update(s, data).0;
    UpdateWrote(s, data);
    UpdateWrote(active, active.data);
    if Update(s, data).1 && Update(active, active.data).1 {
      WroteBoth(s.writes, active.writes, Update(active, active.data).0.writes);
    }
  }

  lemma {:induction false} ChecksWrote(contract: Contract, turns: seq<Turn>, artifact: Artifact, resources: string,
                                       s: State, k: nat)
    requires k <= |contract.checks| == |turns|
    ensures var r := Checks(contract, turns, artifact, resources, s, k);
      r.stop.None? ==> WroteAll(s.writes, r.state.writes)
  {
    hide Update, WroteAll, Launch, ObservedOf, StopOf;
    if k == 0 {
      WroteNothing(s.writes);
    } else {
      ChecksWrote(contract, turns, artifact, resources, s, k - 1);
      var r, t := Checks(contract, turns, artifact, resources, s, k - 1), turns[k - 1];
      var launched := Launch(r.state, t);
      LaunchWrote(r.state, t);
      if r.stop.None? && launched.1.None? {
        var seen := r.seen + [ObservedOf(contract.checks[k - 1], t, artifact, resources)];
        var data := launched.0.data.(phase := "checks", checks := Some(seen));
        UpdateWrote(launched.0, data);
        WroteBoth(s.writes, r.state.writes, launched.0.writes);
        if Update(launched.0, data).1 {
          WroteBoth(s.writes, launched.0.writes, Update(launched.0, data).0.writes);
        }
      }
    }
  }

  lemma ExecuteWrote(contract: Contract, resources: string, s: State, w: World)
    requires |w.turns| == |contract.checks|
    ensures var b := Execute(contract, resources, s, w);
      AfterCatch(b).None? ==> WroteAll(s.writes, b.state.writes)
  {
    hide Produce, Capture, Checks, WroteAll, StopReason;
    var (produced, raised) := Produce(s, w);
    ProduceWrote(s, w);
    if raised.None? {
      var b := Capture(produced, w, StopReason(w));
      CaptureWrote(produced, w, StopReason(w));
      if b.raised.None? {
        WroteBoth(s.writes, produced.writes, b.state.writes);
        if b.artifact.Some? {
          ChecksWrote(contract, w.turns, b.artifact.value, resources, b.state, |contract.checks|);
          var ran := Checks(contract, w.turns, b.artifact.value, resources, b.state, |contract.checks|);
          if ran.stop.None? {
            WroteBoth(s.writes, b.state.writes, ran.state.writes);
          }
        }
      }
    }
  }

  lemma FinishWrote(s: State, r: RunResult, t: Transcript)
    ensures var (after, raised) := Finish(s, r, t); raised.None? ==> WroteAll(s.writes, after.writes)
  {
    hide Update, WroteAll, FailFinalization;
    UpdateWrote(s, FinishedRecord(s.data, r));
  }

  lemma FinalizeWrote(contract: Contract, resources: string, s: State, r: RunResult, w: FinalWorld)
    ensures var (after, result) := Finalize(contract, resources, s, r, w);
      result.Ok? ==> WroteAll(s.writes, after.writes)
  {
    hide Finish, WroteAll, AssessedInputs, FailFinalization, Update, Limited;
    FinishWrote(s, r, w.first);
    var one := Finish(s, r, w.first);
    if one.1.None? {
      var completed := r.(outcome := Complete);
      FinishWrote(one.0, completed, w.second);
      if Finish(one.0, completed, w.second).1.None? {
        WroteBoth(s.writes, one.0.writes, Finish(one.0, completed, w.second).0.writes);
      }
    }
  }

  /** No failed write is swallowed: behind a result without a stop reason every write has succeeded. */
  lemma NoWriteIsSwallowed(contract: Contract, resources: string, s: State, w: World)
    requires |w.turns| == |contract.checks|
    ensures var (after, result) := RunAttempt(contract, resources, s, w);
      result.Ok? && result.value.stop.None? ==> WroteAll(s.writes, after.writes)
  {
    hide Execute, Finalize, Update, FailFinalization, WroteAll, AssessedInputs, Limited;
    var b := Execute(contract, resources, s, w);
    var data := b.state.data.(phase := "record");
    var recorded := Update(b.state, data);
    UpdateWrote(b.state, data);
    FinalizeWrote(contract, resources, recorded.0, ResultOf(b), w.final);
    AttemptTells(contract, resources, s, w);
    var (after, result) := RunAttempt(contract, resources, s, w);
    if result.Ok? && result.value.stop.None? {
      ExecuteWrote(contract, resources, s, w);
      WroteBoth(s.writes, b.state.writes, recorded.0.writes);
      WroteBoth(s.writes, recorded.0.writes, after.writes);
    }
  }

  // ------------------------------------------------------------------ what stops an attempt

  function CodeOf(caught: Option<Caught>): Option<string> {
    match caught
    case None => None
    case Some(Interrupted) => Some("cancelled")
    case Some(Failed(code)) => Some(code)
  }

  /** What a producer can be blamed for, in the order it is asked. */
  function ProducerObstacles(w: World): seq<Option<string>> {
    [w.producer.stop,
     if w.producer.confirmed then None else Some("producer_stop_unconfirmed"),
     if w.producer.error.None? && w.producer.code == Some(0) then None else Some("producer_failed"),
     if w.nativeExit.None? || w.nativeExit == Some(0) then None else Some("native_reported_failure"),
     if w.protocolError then Some("native_protocol_error") else None,
     if w.completion then None else Some("native_completion_unobserved")]
  }

  /** What can stop the checks in one turn: errors, a child stopped for another reason than its time, the deadline. */
  function TurnObstacles(t: Turn): seq<Option<string>> {
    [t.early, if t.before then t.middle else None, t.late,
     if t.before && t.process.stop != Some("timeout") then t.process.stop else None,
     if t.before && !t.process.confirmed then Some("checker_stop_unconfirmed") else None,
     if t.over then Some("attempt_deadline") else None]
  }

  function TurnStops(turns: seq<Turn>): seq<Option<string>> {
    seq(|turns|, i requires 0 <= i < |turns| => FirstOf(TurnObstacles(turns[i])))
  }

  function BeforeCapture(w: World): seq<Option<string>> {
    [CodeOf(w.setup), CodeOf(w.request), CodeOf(w.supervision)]
  }

  function AroundCapture(w: World): seq<Option<string>> {
    [CodeOf(w.expired), CodeOf(if w.captured.Err? then Some(w.captured.error) else None), CodeOf(w.exports)]
  }

  /** What can stop an attempt, in order; an interrupt while a failure is captured comes before the failure. */
  function Obstacles(w: World): seq<Option<string>> {
    var failed := FirstOf(ProducerObstacles(w)).Some?;
    var interrupted := failed && w.producer.confirmed && w.captured == Err(Interrupted);
    BeforeCapture(w) + [if interrupted then Some("cancelled") else None] + ProducerObstacles(w) + AroundCapture(w)
    + if w.captured.Ok? && w.captured.value.Some? then TurnStops(w.turns) else []
  }

  lemma StopReasonIs(w: World)
    ensures StopReason(w) == FirstOf(ProducerObstacles(w))
  {
    hide FirstOf;
    var all := ProducerObstacles(w);
    FirstOfSix(all);
  }

  lemma FirstOfThree<T>(all: seq<Option<T>>)
    requires |all| == 3
    ensures FirstOf(all) == if all[0].Some? then all[0] else if all[1].Some? then all[1] else all[2]
  {
    FirstOfBoth([all[0]] + [all[1]], [all[2]]);
    FirstOfBoth([all[0]], [all[1]]);
    assert all == [all[0]] + [all[1]] + [all[2]];
  }

  lemma FirstOfSix<T>(all: seq<Option<T>>)
    requires |all| == 6
    ensures FirstOf(all) ==
      if all[0].Some? then all[0] else if all[1].Some? then all[1] else if all[2].Some? then all[2]
      else if all[3].Some? then all[3] else if all[4].Some? then all[4] else all[5]
  {
    FirstOfBoth(all[..3], all[3..]);
    FirstOfThree(all[..3]);
    FirstOfThree(all[3..]);
    assert all == all[..3] + all[3..];
  }

  lemma TurnStopsAs(r: Ran, check: Check, t: Turn, artifact: Artifact, resources: string)
    requires r.state.writes == [] && r.stop.None?
    ensures var n := CheckOne(r, check, t, artifact, resources);
      n.state.writes == [] && n.stop == FirstOf(TurnObstacles(t))
  {
    hide FirstOf;
    FirstOfSix(TurnObstacles(t));
  }

  lemma {:induction false} ChecksStopAs(contract: Contract, turns: seq<Turn>, artifact: Artifact, resources: string,
                                        s: State, k: nat)
    requires k <= |contract.checks| == |turns| && s.writes == []
    ensures var r := Checks(contract, turns, artifact, resources, s, k);
      r.state.writes == [] && r.stop == FirstOf(TurnStops(turns[..k]))
  {
    hide CheckOne, TurnObstacles, FirstOf;
    var stops := TurnStops(turns[..k]);
    if k == 0 {
      assert stops == [];
      FirstOfNone<string>();
    } else {
      ChecksStopAs(contract, turns, artifact, resources, s, k - 1);
      var r := Checks(contract, turns, artifact, resources, s, k - 1);
      var last := FirstOf(TurnObstacles(turns[k - 1]));
      assert stops == TurnStops(turns[..k - 1]) + [last];
      FirstOfBoth(TurnStops(turns[..k - 1]), [last]);
      FirstOfOne(last);
      if r.stop.None? {
        TurnStopsAs(r, contract.checks[k - 1], turns[k - 1], artifact, resources);
      }
    }
  }

  lemma ProduceStopsAs(s: State, w: World)
    requires s.writes == []
    ensures var (after, raised) := Produce(s, w);
      && after.writes == [] && CodeOf(raised) == FirstOf(BeforeCapture(w))
  {
    hide FirstOf;
    FirstOfThree(BeforeCapture(w));
  }

  /** With writes that succeed, the stop reason of a returned result is the first obstacle in its attempt's way. */
  lemma StopsAtFirstObstacle(contract: Contract, resources: string, s: State, w: World)
    requires s.writes == [] && |w.turns| == |contract.checks|
    requires RunAttempt(contract, resources, s, w).1.Ok?
    ensures RunAttempt(contract, resources, s, w).1.value.stop == FirstOf(Obstacles(w))
  {
    hide RunAttempt, Execute, Obstacles, AssessedInputs, Limited;
    StopsAtFirst(contract, resources, s, w);
    AttemptTells(contract, resources, s, w);
  }

  lemma StopsAtFirst(contract: Contract, resources: string, s: State, w: World)
    requires s.writes == [] && |w.turns| == |contract.checks|
    ensures var b := Execute(contract, resources, s, w);
      b.state.writes == [] && AfterCatch(b) == FirstOf(Obstacles(w))
  {
    hide Produce, Checks, StopReason, FirstOf, ProducerObstacles, TurnStops, Obstacles, BeforeCapture;
    ProduceStopsAs(s, w);
    StopReasonIs(w);
    FirstObstacle(w);
    UnconfirmedStops(w);
    var (produced, raised) := Produce(s, w);
    var stop := StopReason(w);
    if raised.None? {
      var b := Capture(produced, w, stop);
      if b.raised.None? && b.stop.None? && w.exports.None? && b.artifact.Some? {
        ChecksStopAs(contract, w.turns, b.artifact.value, resources, b.state, |contract.checks|);
        assert w.turns[..|contract.checks|] == w.turns;
      }
    }
  }

  /** The obstacles, one group after another. */
  lemma FirstObstacle(w: World)
    ensures var before, failed := FirstOf(BeforeCapture(w)), FirstOf(ProducerObstacles(w));
      var captured := CodeOf(if w.captured.Err? then Some(w.captured.error) else None);
      FirstOf(Obstacles(w)) ==
      if before.Some? then before
      else if failed.Some? && w.producer.confirmed && w.captured == Err(Interrupted) then Some("cancelled")
      else if failed.Some? then failed
      else if w.expired.Some? then CodeOf(w.expired)
      else if captured.Some? then captured
      else if w.exports.Some? then CodeOf(w.exports)
      else if w.captured.value.Some? then FirstOf(TurnStops(w.turns)) else None
  {
    hide FirstOf, ProducerObstacles, BeforeCapture, TurnStops;
    var interrupted :=
      FirstOf(ProducerObstacles(w)).Some? && w.producer.confirmed && w.captured == Err(Interrupted);
    var cut := if interrupted then Some("cancelled") else None;
    var turns := if w.captured.Ok? && w.captured.value.Some? then TurnStops(w.turns) else [];
    FirstOfBoth(BeforeCapture(w) + [cut] + ProducerObstacles(w) + AroundCapture(w), turns);
    FirstOfBoth(BeforeCapture(w) + [cut] + ProducerObstacles(w), AroundCapture(w));
    FirstOfBoth(BeforeCapture(w) + [cut], ProducerObstacles(w));
    FirstOfBoth(BeforeCapture(w), [cut]);
    FirstOfOne(cut);
    FirstOfThree(AroundCapture(w));
    FirstOfNone<string>();
  }

  lemma UnconfirmedStops(w: World)
    ensures !w.producer.confirmed ==> StopReason(w).Some?
  {
  }

  // ------------------------------------------------------------------ what an attempt holds when it stops

  /** An error keeps this turn from being observed. */
  predicate Raises(t: Turn) { t.early.Some? || (t.before && t.middle.Some?) || t.late.Some? }

  /** This turn is observed: nothing stopped an earlier one, and no error this one. */
  predicate IsObserved(turns: seq<Turn>, i: nat)
    requires i < |turns|
  {
    !Raises(turns[i]) && forall j :: 0 <= j < i ==> FirstOf(TurnObstacles(turns[j])).None?
  }

  lemma RaisesStops(t: Turn)
    ensures Raises(t) ==> FirstOf(TurnObstacles(t)).Some?
  {
    hide FirstOf;
    FirstOfSix(TurnObstacles(t));
  }

  lemma {:induction false} SeenExactly(contract: Contract, turns: seq<Turn>, artifact: Artifact, resources: string,
                                       s: State, k: nat)
    requires k <= |contract.checks| == |turns| && s.writes == []
    ensures var r := Checks(contract, turns, artifact, resources, s, k);
      && (forall i :: 0 <= i < k ==> (i < |r.seen| <==> IsObserved(turns, i)))
      && (r.stop.None? <==> forall j :: 0 <= j < k ==> FirstOf(TurnObstacles(turns[j])).None?)
  {
    hide CheckOne, TurnObstacles, FirstOf, Raises;
    if k > 0 {
      SeenExactly(contract, turns, artifact, resources, s, k - 1);
      ChecksSeen(contract, turns, artifact, resources, s, k - 1);
      var r, t := Checks(contract, turns, artifact, resources, s, k - 1), turns[k - 1];
      ChecksStopAs(contract, turns, artifact, resources, s, k - 1);
      RaisesStops(t);
      if r.stop.None? {
        TurnStopsAs(r, contract.checks[k - 1], t, artifact, resources);
        TurnSees(r, contract.checks[k - 1], t, artifact, resources);
      }
    }
  }

  lemma TurnSees(r: Ran, check: Check, t: Turn, artifact: Artifact, resources: string)
    requires r.state.writes == []
    ensures |CheckOne(r, check, t, artifact, resources).seen| == |r.seen| + if Raises(t) then 0 else 1
  {
  }

  /** The producer was confirmed gone, and its outputs were captured before any deadline that still counts. */
  predicate Captures(w: World) {
    && FirstOf(BeforeCapture(w)).None? && w.producer.confirmed && w.captured.Ok?
    && (FirstOf(ProducerObstacles(w)).None? ==> w.expired.None?)
  }

  /**
   * What an attempt holds: the captured outputs exactly where they were reached, and the observations
   * of exactly the turns that were, each as its turn showed it.
   */
  lemma HoldsExactly(contract: Contract, resources: string, s: State, w: World)
    requires s.writes == [] && |w.turns| == |contract.checks|
    ensures var b := Execute(contract, resources, s, w);
      var reached := Captures(w) && w.captured.value.Some? && FirstOf(ProducerObstacles(w) + AroundCapture(w)).None?;
      && b.artifact == (if Captures(w) then w.captured.value else None)
      && (!reached ==> b.checks == [])
      && (reached ==>
            && (forall i :: 0 <= i < |w.turns| ==> (i < |b.checks| <==> IsObserved(w.turns, i)))
            && |b.checks| <= |w.turns|
            && forall i :: 0 <= i < |b.checks| ==>
                 b.checks[i] == ObservedOf(contract.checks[i], w.turns[i], w.captured.value.value, resources))
  {
    hide Produce, Checks, StopReason, FirstOf, ProducerObstacles, IsObserved, ObservedOf;
    ProduceStopsAs(s, w);
    StopReasonIs(w);
    UnconfirmedStops(w);
    FirstOfBoth(ProducerObstacles(w), AroundCapture(w));
    FirstOfThree(AroundCapture(w));
    var b := Capture(Produce(s, w).0, w, StopReason(w));
    if Captures(w) && w.captured.value.Some? {
      var artifact := w.captured.value.value;
      SeenExactly(contract, w.turns, artifact, resources, b.state, |contract.checks|);
      ChecksSeen(contract, w.turns, artifact, resources, b.state, |contract.checks|);
    }
  }
}
