/** Every repair history: bounded, made of validated rejections of distinct artifacts, and accepted. */
module RepairProofs {
  import opened Prelude
  import opened Assess
  import opened Attempt
  import AttemptProofs
  import opened Repair

  // ------------------------------------------------------------------ one attempt

  function Ran(plan: Plan, t: Try): (State, Result<RunResult, Raised>)
    requires Fits(plan, t)
  {
    RunAttempt(plan.contract, plan.resources, State(t.created, t.created, t.writes), t.world)
  }

  /** This attempt was rejected by its checks, and its record validated as that rejection. */
  predicate ValidatedRejection(plan: Plan, t: Try)
    requires Fits(plan, t)
  {
    var (after, result) := Ran(plan, t);
    && result.Ok? && result.value.outcome == Rejected && result.value.artifact.Some?
    && after.disk.complete && after.disk.phase == "finished" && after.disk.result == Some(result.value)
    && AssessedInputs(plan.contract, plan.resources, result.value, after.disk, t.rejection, true).None?
  }

  function Signature(plan: Plan, t: Try): string
    requires Fits(plan, t)
  {
    var result := Ran(plan, t).1;
    if result.Ok? && result.value.artifact.Some? then result.value.artifact.value.digest else ""
  }

  /** Run ids are allocated afresh. */
  predicate Fresh(tries: seq<Try>) {
    forall i, j :: 0 <= i < j < |tries| ==> tries[i].id != tries[j].id
  }

  lemma ReturnedRecord(plan: Plan, t: Try)
    requires Fits(plan, t) && Ran(plan, t).1.Ok?
    ensures var (after, result) := Ran(plan, t);
      && after.disk.complete && after.disk.phase == "finished" && after.disk.result == Some(result.value)
  {
    hide Execute, AssessedInputs, Limited, WriteOut, FailFinalization, Update;
    var s, w := State(t.created, t.created, t.writes), t.world;
    AttemptProofs.AttemptTells(plan.contract, plan.resources, s, w);
  }

  /** What a turn of the loop that goes on has done: one more retried row, under a new signature. */
  lemma ContinuedTurn(plan: Plan, l: Loop, digest: Digest, t: Try, index: nat)
    requires Fits(plan, t) && l.ending.None? && Advance(plan, l, digest, t, index).ending.None?
    requires |l.ledger.data.attempts| == index - 1
    ensures var n := Advance(plan, l, digest, t, index);
      && index != plan.maxAttempts
      && ValidatedRejection(plan, t)
      && n.ledger.data.attempts == l.ledger.data.attempts
           + [Row(index, t.id, Some(digest(Child(Ran(plan, t).0.disk, index))), Some(Rejected))]
      && n.runs == l.runs[t.id := Child(Ran(plan, t).0.disk, index)]
      && Signature(plan, t) !in l.seen && n.seen == l.seen + {Signature(plan, t)}
  {
    hide RunAttempt, AssessedInputs, FinishController, RejectedInputs, Commit, Judge, RecordRow;
    ReturnedRecord(plan, t);
    var (ledger, ok) := Commit(l.ledger, Attached(l.ledger.data, t.id));
    CommitKeeps(l.ledger, Attached(l.ledger.data, t.id));
    var (after, result) := Ran(plan, t);
    var ran := l.(ledger := ledger, runs := l.runs[t.id := Child(t.created, index)][t.id := Child(after.disk, index)]);
    assert ran.runs == l.runs[t.id := Child(after.disk, index)];
    RecordedRow(ran, digest, t, result.value, l.ledger.data.attempts, index);
    var recorded := RecordRow(ran, digest, t, result.value);
    JudgedOn(plan, recorded, digest, t, result.value, index);
  }

  lemma CommitKeeps(s: Ledger, data: Controller)
    ensures Commit(s, data).0.data == data
  {
  }

  lemma RecordedRow(l: Loop, digest: Digest, t: Try, r: RunResult, rows: seq<Row>, index: nat)
    requires t.id in l.runs && l.ending.None? && RecordRow(l, digest, t, r).ending.None?
    requires |rows| == index - 1 && l.ledger.data.attempts == rows + [Row(index, t.id, None, None)]
    ensures var n := RecordRow(l, digest, t, r);
      && n.ledger.data.attempts == rows + [Row(index, t.id, Some(digest(l.runs[t.id])), Some(r.outcome))]
      && n.runs == l.runs && n.seen == l.seen
  {
  }

  lemma JudgedOn(plan: Plan, l: Loop, digest: Digest, t: Try, r: RunResult, index: nat)
    requires t.id in l.runs && l.ending.None? && Judge(plan, l, digest, t, r, index).ending.None?
    ensures var signature := if r.artifact.Some? then r.artifact.value.digest else "";
      && index != plan.maxAttempts && r.outcome == Rejected && r.artifact.Some?
      && AssessedInputs(plan.contract, plan.resources, r, l.runs[t.id].record, t.rejection, true).None?
      && signature !in l.seen && Judge(plan, l, digest, t, r, index) == l.(seen := l.seen + {signature})
  {
    hide RejectedInputs, FinishController, AssessedInputs;
    FinishEnds(plan, digest, t);
    RejectedHasArtifact(plan, r, l.runs[t.id].record, t.rejection);
  }

  lemma FinishEnds(plan: Plan, digest: Digest, t: Try)
    ensures forall l: Loop, r, reason | t.id in l.runs :: FinishController(plan, l, digest, t, r, reason).ending.Some?
  {
  }

  lemma RejectedHasArtifact(plan: Plan, r: RunResult, record: Record, evidence: Option<Fault>)
    requires RejectedInputs(plan, r, record, evidence) == Ok(true)
    ensures r.outcome == Rejected && r.artifact.Some?
    ensures AssessedInputs(plan.contract, plan.resources, r, record, evidence, true).None?
  {
  }

  // ------------------------------------------------------------------ the history so far

  function ChildOf(plan: Plan, t: Try, i: int): Child
    requires Fits(plan, t)
  {
    Child(Ran(plan, t).0.disk, i + 1)
  }

  function RetriedRow(plan: Plan, t: Try, i: int, digest: Digest): Row
    requires Fits(plan, t)
  {
    Row(i + 1, t.id, Some(digest(ChildOf(plan, t, i))), Some(Rejected))
  }

  ghost predicate AllFit(plan: Plan, tries: seq<Try>) { forall t :: t in tries ==> Fits(plan, t) }

  /** The first `k` attempts were validated rejections of pairwise distinct artifacts. */
  ghost predicate Retried(plan: Plan, tries: seq<Try>, k: int)
    requires AllFit(plan, tries) && 0 <= k <= |tries|
  {
    && (forall i :: 0 <= i < k ==> ValidatedRejection(plan, tries[i]))
    && (forall i, j :: 0 <= i < j < k ==> Signature(plan, tries[i]) != Signature(plan, tries[j]))
  }

  ghost predicate Rows(plan: Plan, tries: seq<Try>, k: int, rows: seq<Row>, digest: Digest)
    requires AllFit(plan, tries) && 0 <= k <= |tries|
  {
    |rows| == k && forall i :: 0 <= i < k ==> rows[i] == RetriedRow(plan, tries[i], i, digest)
  }

  ghost predicate Kept(plan: Plan, tries: seq<Try>, k: int, runs: map<string, Child>)
    requires AllFit(plan, tries) && 0 <= k <= |tries|
  {
    forall i :: 0 <= i < k ==> tries[i].id in runs && runs[tries[i].id] == ChildOf(plan, tries[i], i)
  }

  ghost predicate Signed(plan: Plan, tries: seq<Try>, k: int, seen: set<string>)
    requires AllFit(plan, tries) && 0 <= k <= |tries|
  {
    forall s :: s in seen <==> SignedBefore(plan, tries, k, s)
  }

  /** One of the first `k` attempts had the artifact with this signature. */
  ghost predicate SignedBefore(plan: Plan, tries: seq<Try>, k: int, signature: string)
    requires AllFit(plan, tries) && 0 <= k <= |tries|
  {
    exists i :: 0 <= i < k && Signature(plan, tries[i]) == signature
  }

  /** While the loop goes on, its record, its runs and its signatures are those of the attempts so far. */
  lemma {:induction false} Continuing(plan: Plan, start: Ledger, digest: Digest, tries: seq<Try>, k: nat)
    requires k <= |tries| && AllFit(plan, tries) && start.data.attempts == []
    requires Attempts(plan, start, digest, tries, k).ending.None?
    ensures var l := Attempts(plan, start, digest, tries, k);
      && Rows(plan, tries, k, l.ledger.data.attempts, digest) && Signed(plan, tries, k, l.seen)
      && (Fresh(tries) ==> Kept(plan, tries, k, l.runs))
      && (start.writes == [] ==> l.ledger.writes == [])
    ensures Retried(plan, tries, k) && (k > 0 ==> k != plan.maxAttempts)
  {
    hide Advance, Ran, ValidatedRejection, Signature, RetriedRow, ChildOf, Fresh;
    if k > 0 {
      var l := Attempts(plan, start, digest, tries, k - 1);
      var t := tries[k - 1];
      Continuing(plan, start, digest, tries, k - 1);
      ContinuedTurn(plan, l, digest, t, k);
      NamesOf(plan, t, k - 1, digest);
      OneMoreRetried(plan, digest, tries, k, l.ledger.data.attempts, l.seen);
      if Fresh(tries) { OneMoreKept(plan, tries, k, l.runs); }
      assert start.writes == [] ==> Advance(plan, l, digest, t, k).ledger.writes == [] by {
        if start.writes == [] { TurnWrites(plan, l, digest, t, k); }
      }
    }
  }

  lemma OneMoreRetried(plan: Plan, digest: Digest, tries: seq<Try>, k: int, rows: seq<Row>, seen: set<string>)
    requires 0 < k <= |tries| && AllFit(plan, tries)
    requires Retried(plan, tries, k - 1) && Rows(plan, tries, k - 1, rows, digest) && Signed(plan, tries, k - 1, seen)
    requires ValidatedRejection(plan, tries[k - 1]) && Signature(plan, tries[k - 1]) !in seen
    ensures Retried(plan, tries, k)
    ensures Rows(plan, tries, k, rows + [RetriedRow(plan, tries[k - 1], k - 1, digest)], digest)
    ensures Signed(plan, tries, k, seen + {Signature(plan, tries[k - 1])})
  {
    hide Ran, ValidatedRejection, Signature, RetriedRow, ChildOf, Fits;
    var last := Signature(plan, tries[k - 1]);
    forall s ensures s in seen + {last} <==> SignedBefore(plan, tries, k, s) {
      assert SignedBefore(plan, tries, k, s) <==> SignedBefore(plan, tries, k - 1, s) || s == last;
    }
    forall i | 0 <= i < k - 1 ensures Signature(plan, tries[i]) != last {
      assert SignedBefore(plan, tries, k - 1, Signature(plan, tries[i]));
    }
  }

  lemma OneMoreKept(plan: Plan, tries: seq<Try>, k: int, runs: map<string, Child>)
    requires 0 < k <= |tries| && AllFit(plan, tries) && Fresh(tries) && Kept(plan, tries, k - 1, runs)
    ensures Kept(plan, tries, k, runs[tries[k - 1].id := ChildOf(plan, tries[k - 1], k - 1)])
  {
    hide Ran, ChildOf, Fits;
  }

  lemma NamesOf(plan: Plan, t: Try, i: int, digest: Digest)
    requires Fits(plan, t)
    ensures var child := Child(Ran(plan, t).0.disk, i + 1);
            && ChildOf(plan, t, i) == child
            && RetriedRow(plan, t, i, digest) == Row(i + 1, t.id, Some(digest(child)), Some(Rejected))
  {
  }

  lemma TurnWrites(plan: Plan, l: Loop, digest: Digest, t: Try, index: nat)
    requires Fits(plan, t) && l.ledger.writes == []
    ensures Advance(plan, l, digest, t, index).ledger.writes == []
  {
    hide RunAttempt, AssessedInputs, RejectedInputs, Accepts, Assessed, Attached;
  }

  /** Attempt `k` is run only after validated rejections of distinct artifacts, and within the budget. */
  lemma OnlyRejectionsAreRetried(plan: Plan, start: Ledger, digest: Digest, tries: seq<Try>, k: nat)
    requires k <= |tries| == plan.maxAttempts && AllFit(plan, tries) && start.data.attempts == []
    requires Attempts(plan, start, digest, tries, k).ending.None?
    ensures Retried(plan, tries, k)
    ensures k < plan.maxAttempts || plan.maxAttempts == 0
  {
    Continuing(plan, start, digest, tries, k);
  }

  // ------------------------------------------------------------------ which attempts are retried

  /** Nothing but its own outcome ends the loop: it was admitted in time, and its diagnostics can be read. */
  predicate Unhindered(t: Try) { !t.expired && t.refused.None? && t.diagnostics.None? }

  /** The first `k` attempts: unhindered, validated rejections of pairwise distinct artifacts. */
  ghost predicate GoesThrough(plan: Plan, tries: seq<Try>, k: int)
    requires AllFit(plan, tries) && 0 <= k <= |tries|
  {
    Retried(plan, tries, k) && forall i :: 0 <= i < k ==> Unhindered(tries[i])
  }

  /** `rejected_inputs` validates exactly the rejections whose record is assessed without a fault. */
  lemma RejectedInputsExactly(plan: Plan, r: RunResult, record: Record, evidence: Option<Fault>)
    ensures RejectedInputs(plan, r, record, evidence) == Ok(true) <==>
      r.outcome == Rejected && AssessedInputs(plan.contract, plan.resources, r, record, evidence, true).None?
  {
    hide AssessedInputs, Delivered;
    AssessedExactly(plan.contract, plan.resources, r, record, evidence, true);
    if r.outcome == Rejected && AssessedInputs(plan.contract, plan.resources, r, record, evidence, true).None? {
      StopsNowhere(plan.contract, r, record);
      forall c | c in r.checks ensures Assessable(c) {
        var i :| 0 <= i < |r.checks| && r.checks[i] == c;
      }
    }
  }

  lemma StopsNowhere(contract: Contract, r: RunResult, record: Record)
    requires Delivered(contract, r, record)
    ensures r.stop.None?
  {
  }

  /** In a ledger whose writes succeed, an admitted attempt that returns is recorded and then judged. */
  lemma JudgedTurn(plan: Plan, l: Loop, digest: Digest, t: Try, index: nat) returns (recorded: Loop)
    requires Fits(plan, t) && l.ending.None? && l.ledger.writes == [] && |l.ledger.data.attempts| == index - 1
    requires !t.expired && t.refused.None? && Ran(plan, t).1.Ok?
    ensures recorded.ending.None? && recorded.ledger.writes == [] && recorded.seen == l.seen
    ensures t.id in recorded.runs && recorded.runs[t.id].record == Ran(plan, t).0.disk
    ensures Advance(plan, l, digest, t, index) == Judge(plan, recorded, digest, t, Ran(plan, t).1.value, index)
  {
    hide RunAttempt, Judge;
    ReturnedRecord(plan, t);
    var (after, result) := Ran(plan, t);
    var doc := Attached(l.ledger.data, t.id);
    var ran := l.(ledger := Ledger(doc, doc, []),
                  runs := l.runs[t.id := Child(t.created, index)][t.id := Child(after.disk, index)]);
    recorded := RecordRow(ran, digest, t, result.value);
  }

  /** One turn goes on exactly for a retryable attempt whose artifact is new, within the budget. */
  lemma GoesOn(plan: Plan, l: Loop, digest: Digest, t: Try, index: nat)
    requires Fits(plan, t) && l.ending.None? && l.ledger.writes == [] && |l.ledger.data.attempts| == index - 1
    requires index != plan.maxAttempts
    ensures Advance(plan, l, digest, t, index).ending.None? <==>
      Unhindered(t) && ValidatedRejection(plan, t) && Signature(plan, t) !in l.seen
  {
    hide RunAttempt, AssessedInputs, RejectedInputs, RecordRow, Commit, Attached;
    if !t.expired && t.refused.None? && Ran(plan, t).1.Ok? {
      var recorded := JudgedTurn(plan, l, digest, t, index);
      ReturnedRecord(plan, t);
      RejectedInputsExactly(plan, Ran(plan, t).1.value, Ran(plan, t).0.disk, t.rejection);
      if RejectedInputs(plan, Ran(plan, t).1.value, Ran(plan, t).0.disk, t.rejection) == Ok(true) {
        RejectedHasArtifact(plan, Ran(plan, t).1.value, Ran(plan, t).0.disk, t.rejection);
      }
      FinishEnds(plan, digest, t);
    }
  }

  /**
   * With controller writes that succeed, the loop reaches its attempt `k + 1` exactly when the first `k`
   * were retryable rejections of pairwise distinct artifacts.
   */
  lemma {:induction false} RetriesExactly(plan: Plan, start: Ledger, digest: Digest, tries: seq<Try>, k: nat)
    requires k < |tries| == plan.maxAttempts && AllFit(plan, tries)
    requires start.data.attempts == [] && start.writes == []
    ensures Attempts(plan, start, digest, tries, k).ending.None? <==> GoesThrough(plan, tries, k)
  {
    hide Advance, ValidatedRejection, Unhindered, Signature, Rows, Retried, Kept, SignedBefore, GoesThrough;
    GoesThroughNext(plan, tries, k);
    if k > 0 {
      var l, t := Attempts(plan, start, digest, tries, k - 1), tries[k - 1];
      RetriesExactly(plan, start, digest, tries, k - 1);
      if l.ending.None? {
        Continuing(plan, start, digest, tries, k - 1);
        RowCount(plan, tries, k - 1, l.ledger.data.attempts, digest);
        GoesOn(plan, l, digest, t, k);
        assert Signature(plan, t) in l.seen <==> SignedBefore(plan, tries, k - 1, Signature(plan, t));
      }
    }
  }

  lemma RowCount(plan: Plan, tries: seq<Try>, k: int, rows: seq<Row>, digest: Digest)
    requires AllFit(plan, tries) && 0 <= k <= |tries| && Rows(plan, tries, k, rows, digest)
    ensures |rows| == k
  {
  }

  lemma GoesThroughNext(plan: Plan, tries: seq<Try>, k: nat)
    requires AllFit(plan, tries) && k <= |tries|
    ensures k == 0 ==> GoesThrough(plan, tries, k)
    ensures k > 0 ==>
      var t := tries[k - 1];
      GoesThrough(plan, tries, k) <==>
        && GoesThrough(plan, tries, k - 1) && Unhindered(t) && ValidatedRejection(plan, t)
        && !SignedBefore(plan, tries, k - 1, Signature(plan, t))
  {
    hide ValidatedRejection, Unhindered, Signature, Fits;
  }

  // ------------------------------------------------------------------ a COMPLETE finish

  lemma DistinctRows(rows: seq<Row>)
    requires forall i, j :: 0 <= i < j < |rows| ==> rows[i].id != rows[j].id
    ensures |set i | 0 <= i < |rows| :: rows[i].id| == |rows|
  {
    var ids := seq(|rows|, i requires 0 <= i < |rows| => rows[i].id);
    DistinctExactly(ids);
    assert (set x | x in ids) == set i | 0 <= i < |rows| :: rows[i].id by {
      forall i | 0 <= i < |rows| ensures rows[i].id in ids { assert ids[i] == rows[i].id; }
    }
  }

  function SelectedRow(plan: Plan, t: Try, i: int, digest: Digest): Row
    requires Fits(plan, t)
  {
    Row(i + 1, t.id, Some(digest(ChildOf(plan, t, i))), Some(Complete))
  }

  /** The run of this row is on record as its attempt `n`, finished with this outcome, and under its digest. */
  predicate Vouched(row: Row, n: int, outcome: Outcome, runs: map<string, Child>, digest: Digest) {
    && row.index == n && row.id in runs && row.outcome == Some(outcome) && row.sha == Some(digest(runs[row.id]))
    && runs[row.id].attempt == n && runs[row.id].record.complete && runs[row.id].record.phase == "finished"
    && runs[row.id].record.result.Some? && runs[row.id].record.result.value.outcome == outcome
  }

  /**
   * What an accepted history says: finished runs, all different and in order, each under its own record,
   * every one REJECTED but the last, which is the selected COMPLETE and the controller's own result.
   */
  lemma AcceptedHistory(doc: Controller, runs: map<string, Child>, digest: Digest, selected: string, max: nat)
    requires Accepts(doc, runs, digest, selected, max)
    ensures var n := |doc.attempts|;
      && 1 <= n <= max && doc.finalized && doc.selected == Some(selected) && doc.attempts[n - 1].id == selected
      && (forall i :: 0 <= i < n - 1 ==> Vouched(doc.attempts[i], i + 1, Rejected, runs, digest))
      && Vouched(doc.attempts[n - 1], n, Complete, runs, digest)
      && runs[selected].record.result == doc.result
      && (forall i, j :: 0 <= i < j < n ==> doc.attempts[i].id != doc.attempts[j].id)
  {
    var rows := doc.attempts;
    var ids := seq(|rows|, i requires 0 <= i < |rows| => rows[i].id);
    DistinctExactly(ids);
    assert (set x | x in ids) == set i | 0 <= i < |rows| :: rows[i].id by {
      forall i | 0 <= i < |rows| ensures rows[i].id in ids { assert ids[i] == rows[i].id; }
    }
    assert forall i :: 0 <= i < |rows| ==> ids[i] == rows[i].id;
    forall i | 0 <= i < |rows| - 1 ensures Vouched(rows[i], i + 1, Rejected, runs, digest) {
      assert RowAccepted(doc, i, runs, digest);
    }
    assert RowAccepted(doc, |rows| - 1, runs, digest);
  }

  /** A history of retried rows and one selected COMPLETE is accepted. */
  lemma HistoryAccepted(plan: Plan, tries: seq<Try>, k: nat, doc: Controller, runs: map<string, Child>, digest: Digest)
    requires AllFit(plan, tries) && Fresh(tries) && 1 <= k <= |tries| == plan.maxAttempts <= 16
    requires Retried(plan, tries, k - 1) && Kept(plan, tries, k, runs)
    requires Ran(plan, tries[k - 1]).1.Ok? && Ran(plan, tries[k - 1]).1.value.outcome == Complete
    requires |doc.attempts| == k && Rows(plan, tries, k - 1, doc.attempts[..k - 1], digest)
    requires doc.attempts[k - 1] == SelectedRow(plan, tries[k - 1], k - 1, digest)
    requires doc.finalized && doc.phase == "finished" && doc.selected == Some(tries[k - 1].id)
    requires doc.result == Some(Ran(plan, tries[k - 1]).1.value)
    ensures Accepts(doc, runs, digest, tries[k - 1].id, plan.maxAttempts)
  {
    hide RunAttempt, AssessedInputs, Ran;
    forall i | 0 <= i < k ensures doc.attempts[i].id == tries[i].id && RowAccepted(doc, i, runs, digest) {
      if i < k - 1 {
        assert doc.attempts[..k - 1][i] == doc.attempts[i];
        assert ValidatedRejection(plan, tries[i]);
      } else {
        ReturnedRecord(plan, tries[i]);
      }
    }
    DistinctRows(doc.attempts);
  }

  /** The steps of a turn whose attempt returns COMPLETE, up to the validation of the history. */
  lemma CompleteTurn(plan: Plan, l: Loop, digest: Digest, t: Try, index: nat)
    requires Fits(plan, t) && l.ending.None? && l.ledger.writes == [] && |l.ledger.data.attempts| == index - 1
    requires !t.expired && t.refused.None?
    requires Ran(plan, t).1.Ok? && Ran(plan, t).1.value.outcome == Complete
    ensures var n := Advance(plan, l, digest, t, index);
      var child := Child(Ran(plan, t).0.disk, index);
      var rows := l.ledger.data.attempts + [Row(index, t.id, Some(digest(child)), Some(Complete))];
      var doc := Controller("finished", true, rows, Some(t.id), Some(Ran(plan, t).1.value));
      if t.selection.Some? then n.ending == Some(Aborting(CodeOf(t.selection.value)))
      else
        && n.ledger == Ledger(doc, doc, []) && n.runs == l.runs[t.id := child]
        && n.ending == Some(
             if !Accepts(doc, n.runs, digest, t.id, plan.maxAttempts) then Aborting("record_changed")
             else if t.confirmation.Some? then Aborting(CodeOf(t.confirmation.value))
             else Returned(t.id, Ran(plan, t).1.value, "complete"))
  {
    hide RunAttempt, AssessedInputs, RejectedInputs, Accepts;
    ReturnedRecord(plan, t);
    StillAssessed(plan, t, t.selection);
    StillAssessed(plan, t, t.confirmation);
    var rows := l.ledger.data.attempts + [Row(index, t.id, None, None)];
    var child := Child(Ran(plan, t).0.disk, index);
    assert rows[|rows| - 1 := rows[|rows| - 1].(sha := Some(digest(child)), outcome := Some(Complete))]
      == l.ledger.data.attempts + [Row(index, t.id, Some(digest(child)), Some(Complete))];
  }

  /** What the attempt itself validated is still valid for its controller. */
  lemma StillAssessed(plan: Plan, t: Try, evidence: Option<Fault>)
    requires Fits(plan, t) && Ran(plan, t).1.Ok? && Ran(plan, t).1.value.outcome == Complete
    ensures var (after, result) := Ran(plan, t);
      AssessedInputs(plan.contract, plan.resources, result.value, after.disk, evidence, false) == evidence
  {
    hide RunAttempt, AssessedInputs, Checked, Delivered, Limited;
    var s := State(t.created, t.created, t.writes);
    AttemptProofs.AttemptTells(plan.contract, plan.resources, s, t.world);
    var (after, result) := Ran(plan, t);
    AssessedExactly(plan.contract, plan.resources, result.value, after.disk, t.world.final.again, false);
    AssessedExactly(plan.contract, plan.resources, result.value, after.disk, None, false);
    EvidenceComesLast(plan, result.value, after.disk, evidence);
  }

  lemma EvidenceComesLast(plan: Plan, r: RunResult, record: Record, evidence: Option<Fault>)
    requires AssessedInputs(plan.contract, plan.resources, r, record, None, false).None?
    ensures AssessedInputs(plan.contract, plan.resources, r, record, evidence, false) == evidence
  {
    hide ValidateOutputs, ReduceOutcome;
  }

  /** What the loop holds when it comes to an attempt that only retryable rejections precede. */
  lemma Reached(plan: Plan, start: Ledger, digest: Digest, tries: seq<Try>, k: nat)
    requires 1 <= k <= |tries| == plan.maxAttempts && AllFit(plan, tries) && GoesThrough(plan, tries, k - 1)
    requires start.data.attempts == [] && start.writes == []
    ensures var l := Attempts(plan, start, digest, tries, k - 1);
      && l.ending.None? && l.ledger.writes == [] && |l.ledger.data.attempts| == k - 1
      && (Signature(plan, tries[k - 1]) in l.seen <==> SignedBefore(plan, tries, k - 1, Signature(plan, tries[k - 1])))
      && Attempts(plan, start, digest, tries, k) == Advance(plan, l, digest, tries[k - 1], k)
      && Advance(plan, l, digest, tries[k - 1], k).ledger.writes == []
  {
    hide Advance, ValidatedRejection, Unhindered, Signature, Retried;
    RetriesExactly(plan, start, digest, tries, k - 1);
    Continuing(plan, start, digest, tries, k - 1);
    TurnWrites(plan, Attempts(plan, start, digest, tries, k - 1), digest, tries[k - 1], k);
  }

  /** A loop that has ended is what repair returns or reports, if its last write succeeds. */
  lemma Concluded(plan: Plan, start: Ledger, digest: Digest, tries: seq<Try>, k: nat)
    requires k <= |tries| == plan.maxAttempts && AllFit(plan, tries)
    requires var n := Attempts(plan, start, digest, tries, k); n.ending.Some? && n.ledger.writes == []
    ensures var n, (l, result) := Attempts(plan, start, digest, tries, k), RunRepair(plan, start, digest, tries);
      match n.ending.value
      case Returned(id, r, _) => l == n && result == Ok((id, r))
      case Aborting(code) => result == Err(Failure(code, false))
  {
    hide Attempts;
    AttemptsEnd(plan, start, digest, tries, k, |tries|);
  }

  /**
   * With fresh run ids and controller writes that succeed, a COMPLETE that only retryable rejections
   * precede is what repair returns: the history written is accepted, and only its last run is selected.
   * Evidence that changes around the selection aborts instead.
   */
  lemma CompleteFinishes(plan: Plan, start: Ledger, digest: Digest, tries: seq<Try>, k: nat)
    requires 1 <= k <= |tries| == plan.maxAttempts <= 16 && AllFit(plan, tries) && Fresh(tries)
    requires start.data.attempts == [] && start.writes == [] && GoesThrough(plan, tries, k - 1)
    requires !tries[k - 1].expired && tries[k - 1].refused.None?
    requires Ran(plan, tries[k - 1]).1.Ok? && Ran(plan, tries[k - 1]).1.value.outcome == Complete
    ensures var t := tries[k - 1];
      var r, (l, result) := Ran(plan, t).1.value, RunRepair(plan, start, digest, tries);
      if t.selection.Some? then result == Err(Failure(CodeOf(t.selection.value), false))
      else if t.confirmation.Some? then result == Err(Failure(CodeOf(t.confirmation.value), false))
      else
        && result == Ok((t.id, r)) && l.ending == Some(Returned(t.id, r, "complete"))
        && Accepts(l.ledger.disk, l.runs, digest, t.id, plan.maxAttempts) && |l.ledger.disk.attempts| == k
  {
    hide Advance, Ran, ValidatedRejection, Signature, Accepts, RunRepair, Unhindered;
    Reached(plan, start, digest, tries, k);
    var l, t := Attempts(plan, start, digest, tries, k - 1), tries[k - 1];
    Continuing(plan, start, digest, tries, k - 1);
    CompleteTurn(plan, l, digest, t, k);
    var n := Advance(plan, l, digest, t, k);
    if t.selection.None? {
      assert n.ledger.disk.attempts[..k - 1] == l.ledger.data.attempts;
      HistoryAccepted(plan, tries, k, n.ledger.disk, n.runs, digest);
    }
    Concluded(plan, start, digest, tries, k);
  }

  // ------------------------------------------------------------------ every other end

  /** Some check neither passed nor failed cleanly. */
  predicate Inconclusive(r: RunResult) { exists c :: c in r.checks && c.normalized == 2 }

  /** A rejection has run every check; the conclusive ones are those that can be assessed. */
  lemma RejectionShape(plan: Plan, t: Try)
    requires Fits(plan, t) && Ran(plan, t).1.Ok? && Ran(plan, t).1.value.outcome == Rejected
    ensures var r := Ran(plan, t).1.value;
      && r.stop.None? && r.checks != [] && |r.checks| == |plan.contract.checks|
      && (Inconclusive(r) <==> exists c :: c in r.checks && !Assessable(c))
  {
    hide RunAttempt, Execute;
    var s := State(t.created, t.created, t.writes);
    AttemptProofs.OutcomeTells(plan.contract, plan.resources, s, t.world);
    var r := Ran(plan, t).1.value;
    forall c | c in r.checks ensures c.normalized == 2 <==> !Assessable(c) {
      var check, turn: Turn, artifact :| c == ObservedOf(check, turn, artifact, plan.resources);
      NormalizedExactly(ProcessOf(turn), turn.before && turn.after);
    }
  }
  /**
   * With controller writes that succeed, an admitted attempt that only retryable rejections precede
   * ends the repair, unless it is one itself: it is returned where it proves nothing, repeats an
   * artifact or is the last, and an unreadable diagnosis or a faulty rejection aborts.
   */
  lemma OthersEndToo(plan: Plan, start: Ledger, digest: Digest, tries: seq<Try>, k: nat)
    requires 1 <= k <= |tries| == plan.maxAttempts && AllFit(plan, tries) && GoesThrough(plan, tries, k - 1)
    requires start.data.attempts == [] && start.writes == []
    requires var t := tries[k - 1]; !t.expired && t.refused.None? && Ran(plan, t).1.Ok?
    requires Ran(plan, tries[k - 1]).1.value.outcome != Complete
    ensures var t := tries[k - 1];
      var r, repeats := Ran(plan, t).1.value, SignedBefore(plan, tries, k - 1, Signature(plan, t));
      var fault := AssessedInputs(plan.contract, plan.resources, r, Ran(plan, t).0.disk, t.rejection, true);
      var (l, result) := RunRepair(plan, start, digest, tries);
      if r.outcome != Rejected || Inconclusive(r) then
        result == Ok((t.id, r)) && l.ending == Some(Returned(t.id, r, "not_retryable"))
      else if fault.Some? then result == Err(Failure(CodeOf(fault.value), false))
      else if repeats then result == Ok((t.id, r)) && l.ending == Some(Returned(t.id, r, "no_progress"))
      else if k == plan.maxAttempts then
        result == Ok((t.id, r)) && l.ending == Some(Returned(t.id, r, "max_attempts"))
      else t.diagnostics.Some? ==> result == Err(Failure(t.diagnostics.value, false))
  {
    hide Advance, Accepts, RunRepair, Unhindered, RunAttempt, Retried, Attempts, AssessedInputs, Assessable,
      SignedBefore;
    Reached(plan, start, digest, tries, k);
    var l, t := Attempts(plan, start, digest, tries, k - 1), tries[k - 1];
    var recorded := JudgedTurn(plan, l, digest, t, k);
    if Ran(plan, t).1.value.outcome == Rejected {
      RejectionShape(plan, t);
    }
    if Attempts(plan, start, digest, tries, k).ending.Some? {
      Concluded(plan, start, digest, tries, k);
    }
  }

  /** An attempt that is late, refused or raises an error aborts the repair with that code. */
  lemma HinderedAborts(plan: Plan, start: Ledger, digest: Digest, tries: seq<Try>, k: nat)
    requires 1 <= k <= |tries| == plan.maxAttempts && AllFit(plan, tries) && GoesThrough(plan, tries, k - 1)
    requires start.data.attempts == [] && start.writes == []
    requires var t := tries[k - 1]; t.expired || t.refused.Some? || Ran(plan, t).1.Err?
    ensures var t := tries[k - 1];
      RunRepair(plan, start, digest, tries).1 ==
      Err(Failure(if t.expired then "budget_deadline" else if t.refused.Some? then t.refused.value
                  else Ran(plan, t).1.error.code, false))
  {
    hide RunRepair, Unhindered, RunAttempt, Retried, Attempts, RecordRow, Judge;
    Reached(plan, start, digest, tries, k);
    Concluded(plan, start, digest, tries, k);
  }

  /** A budget of no attempts aborts. */
  lemma EmptyBudgetAborts(plan: Plan, start: Ledger, digest: Digest, tries: seq<Try>)
    requires plan.maxAttempts == |tries| == 0 && start.writes == []
    ensures RunRepair(plan, start, digest, tries).1 == Err(Failure("invalid_budget", false))
  {
  }

  /** Every budget that allows an attempt has a first one that is not followed by another. */
  lemma {:induction false} FirstToEnd(plan: Plan, tries: seq<Try>, n: nat) returns (k: nat)
    requires AllFit(plan, tries) && 1 <= n <= |tries|
    ensures 1 <= k <= n && GoesThrough(plan, tries, k - 1) && (k == n || !GoesThrough(plan, tries, k))
  {
    hide Unhindered, ValidatedRejection, Signature;
    if n == 1 {
      return 1;
    }
    k := FirstToEnd(plan, tries, n - 1);
    if GoesThrough(plan, tries, k) {
      return n;
    }
  }

  // ------------------------------------------------------------------ the whole call

  /** An ending with a result, and what the controller's record on disk then says. */
  predicate EndsWell(plan: Plan, n: Loop, digest: Digest, t: Try, r: RunResult) {
    n.ending.Some? && n.ending.value.Returned? ==>
      && n.ending.value.id == t.id && n.ending.value.result == r
      && n.ledger.disk.finalized && n.ledger.disk.phase == "finished" && n.ledger.disk.result == Some(r)
      && n.ledger.disk.selected == (if r.outcome == Complete then Some(t.id) else None)
      && (r.outcome == Complete ==> Accepts(n.ledger.disk, n.runs, digest, t.id, plan.maxAttempts))
  }

  lemma FinishEndsWell(plan: Plan, l: Loop, digest: Digest, t: Try, r: RunResult, reason: string)
    requires t.id in l.runs
    ensures EndsWell(plan, FinishController(plan, l, digest, t, r, reason), digest, t, r)
  {
    hide AssessedInputs, Accepts;
  }

  lemma JudgeEndsWell(plan: Plan, l: Loop, digest: Digest, t: Try, r: RunResult, index: nat)
    requires t.id in l.runs && l.ending.None?
    ensures EndsWell(plan, Judge(plan, l, digest, t, r, index), digest, t, r)
  {
    hide FinishController, RejectedInputs, Accepts;
    FinishEndsWell(plan, l, digest, t, r, "complete");
    FinishEndsWell(plan, l, digest, t, r, "not_retryable");
    FinishEndsWell(plan, l, digest, t, r, "no_progress");
    FinishEndsWell(plan, l, digest, t, r, "max_attempts");
  }

  lemma EndedTurn(plan: Plan, l: Loop, digest: Digest, t: Try, index: nat)
    requires Fits(plan, t) && l.ending.None?
    ensures var n, result := Advance(plan, l, digest, t, index), Ran(plan, t).1;
      n.ending.Some? && n.ending.value.Returned? ==> result.Ok? && EndsWell(plan, n, digest, t, result.value)
  {
    hide RunAttempt, Judge, EndsWell, Attached, Assessed;
    forall m: Loop, r | t.id in m.runs && m.ending.None?
      ensures EndsWell(plan, Judge(plan, m, digest, t, r, index), digest, t, r)
    {
      JudgeEndsWell(plan, m, digest, t, r, index);
    }
  }

  lemma {:induction false} ReturningTurn(plan: Plan, start: Ledger, digest: Digest, tries: seq<Try>, n: nat)
    returns (k: nat)
    requires n <= |tries| && AllFit(plan, tries) && Attempts(plan, start, digest, tries, n).ending.Some?
    ensures 1 <= k <= n && Attempts(plan, start, digest, tries, k - 1).ending.None?
    ensures var l := Attempts(plan, start, digest, tries, k - 1);
            Attempts(plan, start, digest, tries, n) == Advance(plan, l, digest, tries[k - 1], k)
  {
    hide Advance;
    if Attempts(plan, start, digest, tries, n - 1).ending.None? {
      return n;
    }
    k := ReturningTurn(plan, start, digest, tries, n - 1);
  }

  /**
   * A result that repair returns is the last attempt's own; all before it were validated rejections
   * of distinct artifacts. Only a COMPLETE is selected on disk, and then its history is accepted.
   */
  lemma ReturnedHistory(plan: Plan, start: Ledger, digest: Digest, tries: seq<Try>) returns (k: nat)
    requires |tries| == plan.maxAttempts && AllFit(plan, tries) && start.data.attempts == []
    requires RunRepair(plan, start, digest, tries).1.Ok?
    ensures 1 <= k <= plan.maxAttempts && Retried(plan, tries, k - 1)
    ensures var (l, result) := RunRepair(plan, start, digest, tries);
      && result.value.0 == tries[k - 1].id && Ran(plan, tries[k - 1]).1 == Ok(result.value.1)
      && l.ledger.disk.finalized && l.ledger.disk.phase == "finished"
      && l.ledger.disk.selected == (if result.value.1.outcome == Complete then Some(tries[k - 1].id) else None)
      && (result.value.1.outcome == Complete ==>
            Accepts(l.ledger.disk, l.runs, digest, tries[k - 1].id, plan.maxAttempts))
  {
    hide Advance, Ran, Accepts, ValidatedRejection, Signature, Attempts;
    k := ReturningTurn(plan, start, digest, tries, |tries|);
    Continuing(plan, start, digest, tries, k - 1);
    EndedTurn(plan, Attempts(plan, start, digest, tries, k - 1), digest, tries[k - 1], k);
  }

  /** A COMPLETE from repair is earned by the attempt it selects. */
  lemma RepairedCompleteIsEarned(plan: Plan, start: Ledger, digest: Digest, tries: seq<Try>, id: string, x: RunResult)
      returns (k: nat)
    requires |tries| == plan.maxAttempts && AllFit(plan, tries) && start.data.attempts == []
    requires RunRepair(plan, start, digest, tries).1 == Ok((id, x)) && x.outcome == Complete
    ensures 1 <= k <= plan.maxAttempts && tries[k - 1].id == id
    ensures AttemptProofs.ProducerClean(tries[k - 1].world)
    ensures x.artifact.Some? && tries[k - 1].world.captured == Ok(x.artifact)
    ensures forall turn :: turn in tries[k - 1].world.turns ==> AttemptProofs.TurnClean(turn)
  {
    hide RunRepair, RunAttempt, Retried, Accepts;
    k := ReturnedHistory(plan, start, digest, tries);
    var t := tries[k - 1];
    assert t in tries && Fits(plan, t);
    AttemptProofs.CompleteIsEarned(plan.contract, plan.resources, State(t.created, t.created, t.writes), t.world);
  }

  /** An error leaves nothing selected on disk, unless it reports that its own record was lost. */
  lemma AbortSelectsNothing(plan: Plan, start: Ledger, digest: Digest, tries: seq<Try>)
    requires |tries| == plan.maxAttempts && AllFit(plan, tries)
    ensures var (l, result) := RunRepair(plan, start, digest, tries);
      result.Err? && !result.error.lost ==>
        l.ledger.disk.selected.None? && l.ledger.disk.result.None? && !l.ledger.disk.finalized
        && l.ledger.disk.phase == "halted"
    ensures var result := RunRepair(plan, start, digest, tries).1;
      result.Err? && result.error.lost ==> result.error.code == "controller_finalization_failure"
  {
    hide Attempts;
  }

  // ------------------------------------------------------------------ failed writes

  /** The loop has not been aborted. */
  predicate Sound(l: Loop) { l.ending.Some? ==> l.ending.value.Returned? }

  ghost predicate Wrote(s: Ledger, t: Ledger) { AttemptProofs.WroteAll(s.writes, t.writes) }

  lemma WroteBoth(a: Ledger, b: Ledger, c: Ledger)
    requires Wrote(a, b) && Wrote(b, c)
    ensures Wrote(a, c)
  {
    AttemptProofs.WroteBoth(a.writes, b.writes, c.writes);
  }

  /** A controller write: only one that is done reports so, and only one that keeps the old file leaves it there. */
  lemma CommitExactly(s: Ledger, data: Controller)
    ensures var (after, ok) := Commit(s, data);
      && (ok <==> s.writes == [] || s.writes[0] == Written) && after.data == data
      && after.disk == (if s.writes != [] && s.writes[0] == KeptOld then s.disk else data)
      && after.writes == if s.writes == [] then [] else s.writes[1..]
  {
  }

  lemma CommitWrote(s: Ledger, data: Controller)
    ensures var (after, ok) := Commit(s, data); ok ==> Wrote(s, after)
    ensures Wrote(s, s)
  {
  }

  lemma FinishWrote(plan: Plan, l: Loop, digest: Digest, t: Try, r: RunResult, reason: string)
    requires t.id in l.runs
    ensures var n := FinishController(plan, l, digest, t, r, reason); Sound(n) ==> Wrote(l.ledger, n.ledger)
  {
    hide AssessedInputs, Accepts, Commit, Wrote;
    CommitWrote(l.ledger, FinishedController(l.ledger.data, t.id, r));
  }

  lemma JudgeWrote(plan: Plan, l: Loop, digest: Digest, t: Try, r: RunResult, index: nat)
    requires t.id in l.runs && l.ending.None?
    ensures var n := Judge(plan, l, digest, t, r, index); Sound(n) ==> Wrote(l.ledger, n.ledger)
  {
    hide FinishController, RejectedInputs, Wrote;
    CommitWrote(l.ledger, l.ledger.data);
    FinishWrote(plan, l, digest, t, r, "complete");
    FinishWrote(plan, l, digest, t, r, "not_retryable");
    FinishWrote(plan, l, digest, t, r, "no_progress");
    FinishWrote(plan, l, digest, t, r, "max_attempts");
  }

  lemma RecordWrote(l: Loop, digest: Digest, t: Try, r: RunResult)
    requires t.id in l.runs && l.ending.None?
    ensures var n := RecordRow(l, digest, t, r); n.ending.None? ==> Wrote(l.ledger, n.ledger)
  {
    hide Commit, Wrote;
    if l.ledger.data.attempts != [] {
      CommitWrote(l.ledger, Assessed(l.ledger.data, digest(l.runs[t.id]), r.outcome));
    }
  }

  lemma AdvanceWrote(plan: Plan, l: Loop, digest: Digest, t: Try, index: nat)
    requires Fits(plan, t) && l.ending.None?
    ensures var n := Advance(plan, l, digest, t, index); Sound(n) ==> Wrote(l.ledger, n.ledger)
  {
    hide RunAttempt, Commit, Attached, RecordRow, Judge, Wrote;
    var n := Advance(plan, l, digest, t, index);
    if Sound(n) {
      var (ledger, ok) := Commit(l.ledger, Attached(l.ledger.data, t.id));
      CommitWrote(l.ledger, Attached(l.ledger.data, t.id));
      var (after, result) := Ran(plan, t);
      var ran := l.(ledger := ledger,
                    runs := l.runs[t.id := Child(t.created, index)][t.id := Child(after.disk, index)]);
      RecordWrote(ran, digest, t, result.value);
      var recorded := RecordRow(ran, digest, t, result.value);
      RecordEnds(ran, digest, t, result.value);
      JudgeWrote(plan, recorded, digest, t, result.value, index);
      WroteBoth(l.ledger, ledger, recorded.ledger);
      WroteBoth(l.ledger, recorded.ledger, n.ledger);
    }
  }

  /** A row that cannot be recorded aborts. */
  lemma RecordEnds(l: Loop, digest: Digest, t: Try, r: RunResult)
    requires t.id in l.runs && l.ending.None?
    ensures Sound(RecordRow(l, digest, t, r)) ==> RecordRow(l, digest, t, r).ending.None?
    ensures RecordRow(l, digest, t, r).runs == l.runs
  {
  }

  lemma {:induction false} AttemptsWrote(plan: Plan, start: Ledger, digest: Digest, tries: seq<Try>, k: nat)
    requires k <= |tries| && AllFit(plan, tries)
    ensures var l := Attempts(plan, start, digest, tries, k); Sound(l) ==> Wrote(start, l.ledger)
  {
    hide Advance, Wrote;
    CommitWrote(start, start.data);
    if k > 0 {
      var l := Attempts(plan, start, digest, tries, k - 1);
      AttemptsWrote(plan, start, digest, tries, k - 1);
      if l.ending.None? {
        AdvanceWrote(plan, l, digest, tries[k - 1], k);
        var n := Advance(plan, l, digest, tries[k - 1], k);
        if Sound(n) {
          WroteBoth(start, l.ledger, n.ledger);
        }
      }
    }
  }

  /** No failed controller write is swallowed: behind a returned result every one has succeeded. */
  lemma NoWriteIsSwallowed(plan: Plan, start: Ledger, digest: Digest, tries: seq<Try>)
    requires |tries| == plan.maxAttempts && AllFit(plan, tries)
    ensures var (l, result) := RunRepair(plan, start, digest, tries);
      result.Ok? ==> AttemptProofs.WroteAll(start.writes, l.ledger.writes)
  {
    hide Attempts;
    AttemptsWrote(plan, start, digest, tries, |tries|);
  }
}
