/** What supervision keeps over every run: escalation, its deadline, and what a confirmation rests on. */
module ProcessProofs {
  import opened Prelude
  import opened Process

  function Before(cfg: Config, polls: seq<Poll>, i: nat): real
    requires i <= |polls|
  {
    if i == 0 then cfg.started else polls[i - 1].now
  }

  /** The clock never runs backwards. */
  predicate Clocked(cfg: Config, polls: seq<Poll>) {
    forall i :: 0 <= i < |polls| ==> Before(cfg, polls, i) <= polls[i].asked <= polls[i].now
  }

  /** Turns are at most `d` apart. */
  predicate Paced(cfg: Config, polls: seq<Poll>, d: real) {
    forall i :: 0 <= i < |polls| ==> polls[i].now - Before(cfg, polls, i) <= d
  }

  lemma Shorter(cfg: Config, polls: seq<Poll>, d: real)
    requires polls != [] && Clocked(cfg, polls)
    ensures Clocked(cfg, polls[..|polls| - 1])
    ensures Before(cfg, polls[..|polls| - 1], |polls| - 1) == Before(cfg, polls, |polls| - 1)
    ensures Paced(cfg, polls, d) ==> Paced(cfg, polls[..|polls| - 1], d)
  {
  }

  // ------------------------------------------------------------------ escalation

  /** The signals so far, and the times between the stop, SIGTERM and SIGKILL. */
  predicate Escalated(s: State, cfg: Config) {
    && (s.stopped.Some? <==> s.reason.Some?)
    && (s.stopped.None? ==> s.sent == [])
    && (s.stopped.Some? ==>
          1 <= |s.sent| <= 2 && s.sent[0].signal == Term && s.stopped.value <= s.sent[0].at)
    && (s.reason == Some(Timeout) ==> s.stopped.value - cfg.started >= cfg.timeout)
    && (s.reason == Some(Lingering) ==>
          s.stopped == s.exited && s.sent[0].at - s.stopped.value >= Grace(cfg.cleanup))
    && (|s.sent| == 2 ==>
          && s.sent[1].signal == Kill && s.sent[0].at <= s.sent[1].at
          && s.sent[1].at - s.stopped.value >= cfg.cleanup / 2.0
          && (s.reason == Some(Lingering) ==> s.sent[1].at - s.stopped.value >= cfg.cleanup * 5.0 / 6.0))
  }

  function BeforeReading(s: State, p: Poll, cfg: Config): State {
    Escalate(Stop(Observe(Cancel(s, p), p), p, cfg), p, cfg)
  }

  /** This turn ends the loop because the cleanup budget is spent. */
  predicate GaveUp(s: State, p: Poll, cfg: Config) {
    !Clean(Observe(Cancel(s, p), p), p) && GivesUp(BeforeReading(s, p, cfg), p, cfg)
  }

  /** Nothing recorded lies in the future, and a run ends with all pipes closed or after SIGKILL. */
  predicate Kept(s: State, cfg: Config, now: real) {
    && Escalated(s, cfg)
    && (s.stopped.Some? ==> s.stopped.value <= now)
    && (forall i :: 0 <= i < |s.sent| ==> s.sent[i].at <= now)
    && (s.exited.Some? ==> s.exited.value <= now)
    && (s.running ==> !s.confirmed)
    && (!s.running ==> (s.confirmed && s.open == {}) || |s.sent| == 2)
    && (s.confirmed ==> s.code.Some?)
  }

  lemma CancelKeeps(s: State, p: Poll, cfg: Config, now: real)
    requires Kept(s, cfg, now) && s.running && now <= p.asked <= p.now
    ensures var t := Observe(Cancel(s, p), p);
      && Escalated(t, cfg) && t.running && !t.confirmed
      && (t.stopped.Some? ==> t.stopped.value <= p.now)
      && (forall i :: 0 <= i < |t.sent| ==> t.sent[i].at <= p.now)
      && (t.exited.Some? ==> t.exited.value <= p.now)
  {
  }

  lemma PressKeeps(s: State, p: Poll, cfg: Config)
    requires Escalated(s, cfg) && s.running && !s.confirmed
    requires s.stopped.Some? ==> s.stopped.value <= p.now
    requires forall i :: 0 <= i < |s.sent| ==> s.sent[i].at <= p.now
    requires s.exited.Some? ==> s.exited.value <= p.now
    ensures var t := Escalate(Stop(s, p, cfg), p, cfg);
      && Kept(t, cfg, p.now) && t.running
      && (GivesUp(t, p, cfg) ==> |t.sent| == 2)
  {
    var t := Stop(s, p, cfg);
    assert Escalated(t, cfg);
    assert |t.sent| == 2 ==> Killed(t) by {
      assert |t.sent| == 2 ==> t.sent[1].signal == Kill;
    }
    assert |t.sent| == 1 ==> !Killed(t);
  }

  lemma {:induction false} DrainKeeps(s: State, ready: seq<Read>)
    ensures Drain(s, ready) == s.(calls := Drain(s, ready).calls, open := Drain(s, ready).open)
  {
    if ready != [] {
      DrainKeeps(s, ready[..|ready| - 1]);
    }
  }

  lemma StepKeeps(s: State, p: Poll, cfg: Config, now: real)
    requires Kept(s, cfg, now) && s.running && now <= p.asked <= p.now
    ensures Kept(Step(s, p, cfg), cfg, p.now)
    ensures GaveUp(s, p, cfg) ==> !Step(s, p, cfg).running && |Step(s, p, cfg).sent| == 2
  {
    hide Escalate, Stop, Observe, Cancel, Drain, Grace;
    CancelKeeps(s, p, cfg, now);
    var seen := Observe(Cancel(s, p), p);
    assert seen.code == p.code by { Observed(Cancel(s, p), p); }
    if !Clean(seen, p) {
      PressKeeps(seen, p, cfg);
      DrainKeeps(Escalate(Stop(seen, p, cfg), p, cfg), p.ready);
    }
  }

  lemma Observed(s: State, p: Poll)
    ensures Observe(s, p).code == p.code
  {
  }

  /** Every run: SIGTERM first, SIGKILL late enough, and none given up without SIGKILL. */
  lemma {:induction false} RunKeeps(cfg: Config, polls: seq<Poll>)
    requires Clocked(cfg, polls)
    ensures Kept(Run(cfg, polls), cfg, Before(cfg, polls, |polls|))
  {
    hide Step;
    if polls != [] {
      var most, p := polls[..|polls| - 1], polls[|polls| - 1];
      Shorter(cfg, polls, 0.0);
      RunKeeps(cfg, most);
      if Run(cfg, most).running {
        StepKeeps(Run(cfg, most), p, cfg, Before(cfg, most, |most|));
      }
    }
  }

  /** A run that gives up, confirmed by its last look or not, has sent both signals. */
  lemma GivingUpFollowsKill(cfg: Config, polls: seq<Poll>, k: nat)
    requires Clocked(cfg, polls) && k < |polls|
    requires Run(cfg, polls[..k]).running && GaveUp(Run(cfg, polls[..k]), polls[k], cfg)
    ensures var s := Run(cfg, polls[..k + 1]);
      && !s.running && Names(s.sent) == [Term, Kill] && s.sent[1].at <= polls[k].now
  {
    hide Step, GaveUp, Grace, Run;
    ClockedPrefix(cfg, polls, k);
    RunKeeps(cfg, polls[..k]);
    RunStep(cfg, polls, k);
    StepClocked(cfg, polls, k);
    hide Clocked;
    StepKeeps(Run(cfg, polls[..k]), polls[k], cfg, Before(cfg, polls, k));
  }

  lemma StepClocked(cfg: Config, polls: seq<Poll>, k: nat)
    requires Clocked(cfg, polls) && k < |polls|
    ensures Before(cfg, polls, k) <= polls[k].asked <= polls[k].now
  {
  }

  lemma ClockedPrefix(cfg: Config, polls: seq<Poll>, k: nat)
    requires Clocked(cfg, polls) && k <= |polls|
    ensures Clocked(cfg, polls[..k]) && Before(cfg, polls[..k], k) == Before(cfg, polls, k)
  {
    forall i | 0 <= i < k ensures Before(cfg, polls[..k], i) <= polls[..k][i].asked <= polls[..k][i].now {
      assert Before(cfg, polls[..k], i) == Before(cfg, polls, i);
    }
  }

  /** The recorded signals are nothing, SIGTERM, or SIGTERM then SIGKILL; giving up needs both. */
  lemma SignalsEscalate(cfg: Config, polls: seq<Poll>, late: bool, waited: Option<int>)
    requires Clocked(cfg, polls)
    ensures var o := Leave(Run(cfg, polls), late, waited);
      && o.signals in [[], [Term], [Term, Kill]]
      && (o.reason.None? ==> o.signals == [])
      && (!Run(cfg, polls).running && !o.confirmed ==>
            o.signals == [Term, Kill] && o.reason.Some? && o.forced && o.code == waited)
      && (o.confirmed ==> o.code == Run(cfg, polls).code && !o.forced) && !o.unstarted
  {
    RunKeeps(cfg, polls);
    var names := Names(Run(cfg, polls).sent);
    assert |names| == 0 ==> names == [];
    assert |names| == 1 ==> names == [Term];
    assert |names| == 2 ==> names == [Term, Kill];
  }

  // ------------------------------------------------------------------ the deadline

  predicate Bounded(s: State, cfg: Config, now: real, d: real) {
    && (s.stopped.Some? ==> s.stopped.value < cfg.started + cfg.timeout + d)
    && (s.running ==>
          if s.stopped.Some? then now - s.stopped.value < cfg.cleanup else now < cfg.started + cfg.timeout)
  }

  lemma StepBounded(s: State, p: Poll, cfg: Config, now: real, d: real)
    requires Kept(s, cfg, now) && Bounded(s, cfg, now, d) && s.running
    requires now <= p.asked <= p.now <= now + d
    ensures Bounded(Step(s, p, cfg), cfg, p.now, d)
  {
    hide Drain, Killed, KillAfter, Grace;
    var seen := Observe(Cancel(s, p), p);
    var pressed := Escalate(Stop(seen, p, cfg), p, cfg);
    DrainKeeps(pressed, p.ready);
  }

  lemma {:induction false} RunBounded(cfg: Config, polls: seq<Poll>, d: real)
    requires cfg.timeout > 0.0 && Clocked(cfg, polls) && Paced(cfg, polls, d)
    requires d >= 0.0
    ensures Bounded(Run(cfg, polls), cfg, Before(cfg, polls, |polls|), d)
  {
    hide Step;
    if polls != [] {
      var most := polls[..|polls| - 1];
      Shorter(cfg, polls, d);
      RunBounded(cfg, most, d);
      RunKeeps(cfg, most);
      if Run(cfg, most).running {
        StepBounded(Run(cfg, most), polls[|polls| - 1], cfg, Before(cfg, most, |most|), d);
      }
    }
  }

  lemma PacedLast(cfg: Config, polls: seq<Poll>, d: real)
    requires polls != [] && Paced(cfg, polls, d)
    ensures polls[|polls| - 1].now - Before(cfg, polls, |polls| - 1) <= d
  {
  }

  /** Whatever the child does, no turn begins later than the deadline, the budget and two turns. */
  lemma {:induction false} EndsInTime(cfg: Config, polls: seq<Poll>, d: real)
    requires cfg.timeout > 0.0 && cfg.cleanup >= 0.0 && d >= 0.0
    requires Clocked(cfg, polls) && Paced(cfg, polls, d)
    ensures Run(cfg, polls).running ==>
      Before(cfg, polls, |polls|) < cfg.started + cfg.timeout + cfg.cleanup + d
    ensures polls != [] && Run(cfg, polls[..|polls| - 1]).running ==>
      polls[|polls| - 1].now < cfg.started + cfg.timeout + cfg.cleanup + 2.0 * d
  {
    hide Run, Clocked, Paced;
    RunBounded(cfg, polls, d);
    if polls != [] {
      PacedLast(cfg, polls, d);
      Shorter(cfg, polls, d);
      RunBounded(cfg, polls[..|polls| - 1], d);
    }
  }

  // ------------------------------------------------------------------ lingering children

  /** A process group that is gone does not come back. */
  predicate GroupStaysGone(polls: seq<Poll>) {
    forall i :: 0 < i < |polls| && polls[i].group ==> polls[i - 1].group
  }

  predicate Prompt(s: State, cfg: Config, now: real, group: bool, d: real) {
    && (s.running && s.stopped.None? && s.exited.Some? && group ==> now - s.exited.value < Grace(cfg.cleanup))
    && (s.reason == Some(Lingering) ==>
          s.stopped.Some? && s.sent != [] && s.sent[0].at <= s.stopped.value + Grace(cfg.cleanup) + d)
  }

  lemma StepPrompt(s: State, p: Poll, cfg: Config, now: real, group: bool, d: real)
    requires cfg.cleanup > 0.0 && Kept(s, cfg, now) && Prompt(s, cfg, now, group, d) && s.running
    requires now <= p.asked <= p.now <= now + d && (p.group ==> group)
    ensures Prompt(Step(s, p, cfg), cfg, p.now, p.group, d)
  {
    hide Drain, Killed, KillAfter;
    var pressed := Escalate(Stop(Observe(Cancel(s, p), p), p, cfg), p, cfg);
    DrainKeeps(pressed, p.ready);
  }

  lemma {:induction false} RunPrompt(cfg: Config, polls: seq<Poll>, d: real)
    requires cfg.cleanup > 0.0 && Clocked(cfg, polls) && Paced(cfg, polls, d) && GroupStaysGone(polls)
    ensures Prompt(Run(cfg, polls), cfg, Before(cfg, polls, |polls|), polls == [] || polls[|polls| - 1].group, d)
  {
    hide Step, Grace;
    if polls != [] {
      var most, p := polls[..|polls| - 1], polls[|polls| - 1];
      Shorter(cfg, polls, d);
      forall i | 0 < i < |most| && most[i].group ensures most[i - 1].group {
        assert most[i] == polls[i] && most[i - 1] == polls[i - 1];
      }
      RunPrompt(cfg, most, d);
      RunKeeps(cfg, most);
      if Run(cfg, most).running {
        StepPrompt(Run(cfg, most), p, cfg, Before(cfg, most, |most|), most == [] || most[|most| - 1].group, d);
      }
    }
  }

  /** Lingering children have a sixth of the budget, less one turn, between the two signals. */
  lemma LingeringHasTime(cfg: Config, polls: seq<Poll>, d: real)
    requires cfg.cleanup > 0.0 && Clocked(cfg, polls) && Paced(cfg, polls, d) && GroupStaysGone(polls)
    ensures var s := Run(cfg, polls);
      s.reason == Some(Lingering) && |s.sent| == 2 ==> s.sent[1].at - s.sent[0].at >= cfg.cleanup / 6.0 - d
  {
    RunPrompt(cfg, polls, d);
    RunKeeps(cfg, polls);
  }

  /**
   * The turn that decides that children linger sends both signals exactly when it comes 5/6 of the
   * budget or more after the exit.
   */
  lemma BothInOneTurnExactly(cfg: Config, polls: seq<Poll>, p: Poll)
    requires Clocked(cfg, polls + [p]) && Run(cfg, polls).running && Run(cfg, polls).reason.None?
    requires Run(cfg, polls + [p]).reason == Some(Lingering)
    ensures var s := Run(cfg, polls + [p]);
      && s.exited.Some? && s.sent != [] && s.sent[0] == Sent(Term, p.now)
      && (s.sent == [Sent(Term, p.now), Sent(Kill, p.now)] <==> p.now - s.exited.value >= cfg.cleanup * 5.0 / 6.0)
      && (|s.sent| == 2 <==> p.now - s.exited.value >= cfg.cleanup * 5.0 / 6.0)
  {
    hide Drain, Run;
    var all := polls + [p];
    assert all[..|polls|] == polls;
    RunStep(cfg, all, |polls|);
    assert all[..|polls| + 1] == all;
    Shorter(cfg, all, 0.0);
    RunKeeps(cfg, polls);
    LingeringStep(Run(cfg, polls), p, cfg);
  }

  lemma LingeringStep(s: State, p: Poll, cfg: Config)
    requires s.running && s.reason.None? && s.stopped.None? && s.sent == []
    requires Step(s, p, cfg).reason == Some(Lingering)
    ensures var t := Step(s, p, cfg);
      && t.exited.Some?
      && t.sent == if p.now - t.exited.value >= cfg.cleanup * 5.0 / 6.0
           then [Sent(Term, p.now), Sent(Kill, p.now)] else [Sent(Term, p.now)]
  {
    hide Drain;
    DrainKeeps(BeforeReading(s, p, cfg), p.ready);
  }

  /** So without a bound on the turns they may have no time at all. */
  lemma LingeringMayHaveNone()
    ensures exists polls ::
      && Clocked(Config(60.0, 6.0, 0.0), polls) && GroupStaysGone(polls)
      && Run(Config(60.0, 6.0, 0.0), polls).sent == [Sent(Term, 7.0), Sent(Kill, 7.0)]
  {
    var cfg := Config(60.0, 6.0, 0.0);
    var early := Poll(false, 1.0, 1.0, Some(0), true, [], None, true);
    var late := Poll(false, 7.0, 7.0, Some(0), true, [], None, true);
    var polls := [early, late];
    assert polls[..1] == [early] && [early][..0] == [];
    assert Run(cfg, [early]) == INITIAL.(exited := Some(1.0), code := Some(0));
    assert Run(cfg, polls).sent == [Sent(Term, 7.0), Sent(Kill, 7.0)];
    assert Clocked(cfg, polls) && GroupStaysGone(polls);
  }

  // ------------------------------------------------------------------ cancellation

  predicate InterruptedAt(cfg: Config, polls: seq<Poll>, i: int) {
    0 <= i < |polls| && Run(cfg, polls[..i]).running && polls[i].interrupted
  }

  lemma InterruptedNext(cfg: Config, polls: seq<Poll>)
    requires polls != []
    ensures var most := polls[..|polls| - 1];
      && (forall i :: InterruptedAt(cfg, polls, i) <==>
            InterruptedAt(cfg, most, i) || (i == |most| && Run(cfg, most).running && polls[i].interrupted))
  {
    hide Run;
    var most := polls[..|polls| - 1];
    forall i | 0 <= i < |most| ensures polls[..i] == most[..i] {
    }
  }

  lemma {:induction false} RunCancelled(cfg: Config, polls: seq<Poll>)
    requires Clocked(cfg, polls)
    ensures Run(cfg, polls).reason == Some(Cancelled) <==> exists i :: InterruptedAt(cfg, polls, i)
  {
    hide Step, Grace, Clocked;
    if polls != [] {
      hide InterruptedAt;
      var most, p := polls[..|polls| - 1], polls[|polls| - 1];
      Shorter(cfg, polls, 0.0);
      RunCancelled(cfg, most);
      InterruptedNext(cfg, polls);
      if Run(cfg, most).running {
        RunKeeps(cfg, most);
        StepCancelled(Run(cfg, most), p, cfg);
        assert p.interrupted ==> InterruptedAt(cfg, polls, |most|);
      }
    }
  }

  lemma StepCancelled(s: State, p: Poll, cfg: Config)
    requires s.running && (s.stopped.Some? || s.reason != Some(Cancelled))
    ensures Step(s, p, cfg).reason == Some(Cancelled) <==> p.interrupted || s.reason == Some(Cancelled)
  {
    hide Drain, Killed, KillAfter, Grace;
    DrainKeeps(Escalate(Stop(Observe(Cancel(s, p), p), p, cfg), p, cfg), p.ready);
  }

  /** The observation says "cancelled" exactly when an interrupt was seen, in the loop or after it. */
  lemma CancelledExactly(cfg: Config, polls: seq<Poll>, late: bool, waited: Option<int>)
    requires Clocked(cfg, polls)
    ensures Leave(Run(cfg, polls), late, waited).reason == Some(Cancelled)
      <==> late || exists i :: InterruptedAt(cfg, polls, i)
  {
    RunCancelled(cfg, polls);
  }

  // ------------------------------------------------------------------ why a run was stopped

  /** The clock of the first turn that found the child's exit code. */
  function ExitSeen(polls: seq<Poll>): Option<real> {
    if polls == [] then None
    else
      var before, last := ExitSeen(polls[..|polls| - 1]), polls[|polls| - 1];
      if before.Some? then before else if last.code.Some? then Some(last.now) else None
  }

  predicate Overdue(cfg: Config, polls: seq<Poll>, i: int) {
    0 <= i < |polls| && polls[i].now - cfg.started >= cfg.timeout
  }

  /** The child has been gone for two thirds of the budget, and its group is still there. */
  predicate Lingers(cfg: Config, polls: seq<Poll>, i: int) {
    && 0 <= i < |polls| && polls[i].group
    && var exit := ExitSeen(polls[..i + 1]);
    && exit.Some? && polls[i].now - exit.value >= cfg.cleanup * 2.0 / 3.0
  }

  /** This turn finds the child reaped, its group gone and all pipes closed. */
  predicate FoundClean(cfg: Config, polls: seq<Poll>, i: int) {
    0 <= i < |polls| && polls[i].code.Some? && !polls[i].group && Run(cfg, polls[..i]).open == {}
  }

  /** The first running turn that is overdue or finds lingering children, and not a clean end. */
  predicate DecidesAt(cfg: Config, polls: seq<Poll>, k: int) {
    && 0 <= k < |polls| && Run(cfg, polls[..k]).running && !FoundClean(cfg, polls, k)
    && (Overdue(cfg, polls, k) || Lingers(cfg, polls, k))
    && forall i :: 0 <= i < k ==> !Overdue(cfg, polls, i) && !Lingers(cfg, polls, i)
  }

  ghost predicate Interrupts(cfg: Config, polls: seq<Poll>) { exists i :: InterruptedAt(cfg, polls, i) }

  ghost predicate StoppedFor(cfg: Config, polls: seq<Poll>, overdue: bool) {
    exists k :: DecidesAt(cfg, polls, k) && Overdue(cfg, polls, k) == overdue
  }

  predicate NothingYet(cfg: Config, polls: seq<Poll>) {
    forall i :: 0 <= i < |polls| ==> !Overdue(cfg, polls, i) && !Lingers(cfg, polls, i)
  }

  /** What one more turn adds to the conditions above. */
  lemma OneMoreTurn(cfg: Config, most: seq<Poll>, p: Poll)
    ensures var polls, n, before := most + [p], |most|, ExitSeen(most);
      && ExitSeen(polls) == (if before.Some? then before else if p.code.Some? then Some(p.now) else None)
      && (forall i :: i < n ==> Overdue(cfg, polls, i) == Overdue(cfg, most, i))
      && (forall i :: i < n ==> Lingers(cfg, polls, i) == Lingers(cfg, most, i))
      && (forall i :: i < n ==> DecidesAt(cfg, polls, i) == DecidesAt(cfg, most, i))
  {
    hide Run;
    var polls, n := most + [p], |most|;
    assert polls[..n] == most;
    forall i | i < n ensures Lingers(cfg, polls, i) == Lingers(cfg, most, i) {
      assert i >= 0 ==> polls[..i + 1] == most[..i + 1];
    }
    hide ExitSeen;
    forall i | 0 <= i < n ensures polls[..i] == most[..i] {
    }
    assert forall i :: i < n ==> FoundClean(cfg, polls, i) == FoundClean(cfg, most, i);
    assert forall i :: i < n ==> Overdue(cfg, polls, i) == Overdue(cfg, most, i);
  }

  /** The reason after one turn that follows no interrupt. */
  lemma StepReason(s: State, p: Poll, cfg: Config)
    requires s.running && (s.stopped.Some? <==> s.reason.Some?) && !p.interrupted
    ensures var t := Step(s, p, cfg);
      var exit := if s.exited.Some? then s.exited else if p.code.Some? then Some(p.now) else None;
      && t.exited == exit && (t.stopped.Some? <==> t.reason.Some?)
      && t.reason ==
         if s.reason.Some? || (p.code.Some? && !p.group && s.open == {}) then s.reason
         else if p.now - cfg.started >= cfg.timeout then Some(Timeout)
         else if exit.Some? && p.group && p.now - exit.value >= cfg.cleanup * 2.0 / 3.0 then Some(Lingering)
         else None
  {
    hide Drain, Killed, KillAfter;
    DrainKeeps(BeforeReading(s, p, cfg), p.ready);
  }

  lemma {:induction false} RunReason(cfg: Config, polls: seq<Poll>)
    requires !Interrupts(cfg, polls)
    ensures var s := Run(cfg, polls);
      && (s.stopped.Some? <==> s.reason.Some?)
      && s.reason != Some(Cancelled)
      && (s.running ==> s.exited == ExitSeen(polls) && (s.reason.None? <==> NothingYet(cfg, polls)))
      && (s.reason == Some(Timeout) <==> StoppedFor(cfg, polls, true))
      && (s.reason == Some(Lingering) <==> StoppedFor(cfg, polls, false))
  {
    if polls != [] {
      hide Step, Overdue, Lingers, DecidesAt, InterruptedAt, FoundClean;
      var most, p, n := polls[..|polls| - 1], polls[|polls| - 1], |polls| - 1;
      assert polls == most + [p];
      InterruptedNext(cfg, polls);
      RunReason(cfg, most);
      OneMoreTurn(cfg, most, p);
      LastDecides(cfg, most, p);
      assert StoppedFor(cfg, polls, true) <==>
             StoppedFor(cfg, most, true) || (DecidesAt(cfg, polls, n) && Overdue(cfg, polls, n));
      assert StoppedFor(cfg, polls, false) <==>
             StoppedFor(cfg, most, false) || (DecidesAt(cfg, polls, n) && !Overdue(cfg, polls, n));
      assert NothingYet(cfg, polls) <==> NothingYet(cfg, most) && !Overdue(cfg, polls, n) && !Lingers(cfg, polls, n);
      var s := Run(cfg, most);
      if s.running {
        assert !p.interrupted by { LastUninterrupted(cfg, most, p); }
        StepReason(s, p, cfg);
        CleanEnds(s, p, cfg);
      }
    }
  }

  lemma LastUninterrupted(cfg: Config, most: seq<Poll>, p: Poll)
    requires !InterruptedAt(cfg, most + [p], |most|) && Run(cfg, most).running
    ensures !p.interrupted
  {
    assert (most + [p])[..|most|] == most;
  }

  lemma CleanEnds(s: State, p: Poll, cfg: Config)
    ensures p.code.Some? && !p.group && s.open == {} ==> !Step(s, p, cfg).running
  {
  }

  lemma LastDecides(cfg: Config, most: seq<Poll>, p: Poll)
    ensures var polls, n, exit := most + [p], |most|, ExitSeen(most + [p]);
      && (Overdue(cfg, polls, n) <==> p.now - cfg.started >= cfg.timeout)
      && (Lingers(cfg, polls, n) <==> p.group && exit.Some? && p.now - exit.value >= cfg.cleanup * 2.0 / 3.0)
      && (DecidesAt(cfg, polls, n) <==>
            && Run(cfg, most).running && !(p.code.Some? && !p.group && Run(cfg, most).open == {})
            && (Overdue(cfg, polls, n) || Lingers(cfg, polls, n)) && NothingYet(cfg, most))
  {
    hide Run, ExitSeen;
    var polls, n := most + [p], |most|;
    assert polls[..n] == most && polls[..n + 1] == polls;
    OneMoreTurn(cfg, most, p);
  }

  /**
   * Why a run was stopped: "timeout" exactly where the first turn with a reason to stop is past the
   * deadline, "lingering" exactly where it is not, but finds the group there two thirds of the budget
   * after the exit; and neither once an interrupt has been seen or comes late.
   */
  lemma ReasonExactly(cfg: Config, polls: seq<Poll>, late: bool, waited: Option<int>)
    requires Clocked(cfg, polls)
    ensures var o, spared := Leave(Run(cfg, polls), late, waited), !late && !Interrupts(cfg, polls);
      && (o.reason == Some(Timeout) <==> spared && StoppedFor(cfg, polls, true))
      && (o.reason == Some(Lingering) <==> spared && StoppedFor(cfg, polls, false))
      && (o.reason == Some(Cancelled) <==> !spared)
  {
    hide Run, StoppedFor;
    RunCancelled(cfg, polls);
    if !Interrupts(cfg, polls) {
      RunReason(cfg, polls);
    }
  }

  // ------------------------------------------------------------------ when a turn ends the loop, and when it kills

  /** A turn ends the loop exactly where it finds everything clean, or the budget spent since the stop. */
  lemma EndsExactly(cfg: Config, polls: seq<Poll>, k: nat)
    requires k < |polls| && Run(cfg, polls[..k]).running
    ensures var s := Run(cfg, polls[..k + 1]);
      !s.running <==> FoundClean(cfg, polls, k) ||
                      (s.stopped.Some? && polls[k].now - s.stopped.value >= cfg.cleanup)
  {
    hide Drain, Run, Killed, KillAfter;
    RunStep(cfg, polls, k);
    DrainKeeps(BeforeReading(Run(cfg, polls[..k]), polls[k], cfg), polls[k].ready);
  }

  /** The part of the budget before SIGKILL: half of it, or five sixths after two thirds of waiting. */
  function Share(reason: Option<Reason>): real {
    if reason == Some(Lingering) then 5.0 / 6.0 else 0.5
  }

  /** The stop has lasted its share of the budget by this turn. */
  predicate ShareSpent(s: State, p: Poll, cfg: Config) {
    s.stopped.Some? && p.now - s.stopped.value >= Share(s.reason) * cfg.cleanup
  }

  /** SIGKILL has been sent by the turn in which the stop has lasted its share of the budget, and not before. */
  lemma KillsInTime(cfg: Config, polls: seq<Poll>, k: nat)
    requires Clocked(cfg, polls) && k < |polls| && Run(cfg, polls[..k]).running && !FoundClean(cfg, polls, k)
    ensures var before, s := Run(cfg, polls[..k]), Run(cfg, polls[..k + 1]);
      |s.sent| == 2 <==> |before.sent| == 2 || ShareSpent(s, polls[k], cfg)
  {
    hide Step, Run, ShareSpent;
    ClockedPrefix(cfg, polls, k);
    RunKeeps(cfg, polls[..k]);
    RunStep(cfg, polls, k);
    StepKills(Run(cfg, polls[..k]), polls[k], cfg);
  }

  lemma StepKills(s: State, p: Poll, cfg: Config)
    requires s.running && Escalated(s, cfg) && !(p.code.Some? && !p.group && s.open == {})
    ensures var t := Step(s, p, cfg); |t.sent| == 2 <==> |s.sent| == 2 || ShareSpent(t, p, cfg)
  {
    hide Drain, Escalate, Stop, Grace, ShareSpent;
    var t := Stop(Observe(Cancel(s, p), p), p, cfg);
    StopSends(s, p, cfg);
    EscalateKills(t, p, cfg);
    DrainKeeps(BeforeReading(s, p, cfg), p.ready);
    SameShare(BeforeReading(s, p, cfg), Step(s, p, cfg), p, cfg);
  }

  lemma SameShare(s: State, t: State, p: Poll, cfg: Config)
    requires s.stopped == t.stopped && s.reason == t.reason
    ensures ShareSpent(s, p, cfg) == ShareSpent(t, p, cfg)
  {
  }

  /** Before SIGKILL is considered there is at most SIGTERM beside what was sent in earlier turns. */
  lemma StopSends(s: State, p: Poll, cfg: Config)
    requires Escalated(s, cfg)
    ensures var t := Stop(Observe(Cancel(s, p), p), p, cfg);
      && (t.stopped.Some? ==> 1 <= |t.sent| <= 2 && t.sent[0].signal == Term)
      && (t.stopped.None? ==> t.sent == [])
      && (|t.sent| == 2 ==> t.sent[1].signal == Kill) && (|t.sent| == 2 <==> |s.sent| == 2)
  {
    hide Grace;
  }

  lemma EscalateKills(t: State, p: Poll, cfg: Config)
    requires t.stopped.Some? ==> 1 <= |t.sent| <= 2 && t.sent[0].signal == Term
    requires t.stopped.None? ==> t.sent == []
    requires |t.sent| == 2 ==> t.sent[1].signal == Kill
    ensures var n := Escalate(t, p, cfg); |n.sent| == 2 <==> |t.sent| == 2 || ShareSpent(n, p, cfg)
  {
    hide KillAfter, Share;
    ShareIsKillAfter(t.reason, cfg.cleanup);
    assert Killed(t) <==> |t.sent| == 2;
  }

  lemma ShareIsKillAfter(reason: Option<Reason>, cleanup: real)
    ensures KillAfter(reason, cleanup) == Share(reason) * cleanup
  {
  }

  // ------------------------------------------------------------------ what is received

  /** The bytes read in these reads, with the pipe each came from. */
  function Chunks(ready: seq<Read>): seq<(Stream, Bytes)> {
    if ready == [] then []
    else
      var last := ready[|ready| - 1];
      Chunks(ready[..|ready| - 1])
      + if last.chunk.Some? && last.chunk.value != [] then [(last.stream, last.chunk.value)] else []
  }

  /** Every chunk read is passed on, in order, and exactly the pipes that were at their end are closed. */
  lemma {:induction false} DrainExactly(s: State, ready: seq<Read>)
    ensures Drain(s, ready).calls == s.calls + Chunks(ready)
    ensures forall p :: p in Drain(s, ready).open <==> p in s.open && Read(p, Some([])) !in ready
  {
    hide Take;
    if ready != [] {
      var init, last := ready[..|ready| - 1], ready[|ready| - 1];
      DrainExactly(s, init);
      TakeExactly(Drain(s, init), last);
      assert ready == init + [last];
    }
  }

  lemma TakeExactly(s: State, r: Read)
    ensures Take(s, r).calls ==
            s.calls + if r.chunk.Some? && r.chunk.value != [] then [(r.stream, r.chunk.value)] else []
    ensures forall p :: p in Take(s, r).open <==> p in s.open && r != Read(p, Some([]))
  {
  }

  /** Everything read by these turns. */
  function AllChunks(polls: seq<Poll>): seq<(Stream, Bytes)> {
    if polls == [] then [] else AllChunks(polls[..|polls| - 1]) + Chunks(polls[|polls| - 1].ready)
  }

  /** A running loop has passed on everything that was read; the turn that ends it reads nothing. */
  lemma {:induction false} RunReceives(cfg: Config, polls: seq<Poll>)
    ensures Run(cfg, polls).running ==>
      && Run(cfg, polls).calls == AllChunks(polls)
      && forall p :: p in Run(cfg, polls).open <==>
           forall i :: 0 <= i < |polls| ==> Read(p, Some([])) !in polls[i].ready
    ensures polls != [] && Run(cfg, polls[..|polls| - 1]).running && !Run(cfg, polls).running ==>
      Run(cfg, polls).calls == AllChunks(polls[..|polls| - 1])
  {
    hide Drain;
    if polls == [] {
      forall p: Stream ensures p in INITIAL.open {
        assert p == Stdout || p == Stderr;
      }
    } else {
      hide Step;
      var most, last := polls[..|polls| - 1], polls[|polls| - 1];
      RunReceives(cfg, most);
      if Run(cfg, most).running {
        StepReceives(Run(cfg, most), last, cfg);
        assert forall i :: 0 <= i < |most| ==> polls[i] == most[i];
      }
    }
  }

  lemma StepReceives(s: State, p: Poll, cfg: Config)
    requires s.running
    ensures var t := Step(s, p, cfg);
      && (t.running ==>
            && t.calls == s.calls + Chunks(p.ready)
            && forall q :: q in t.open <==> q in s.open && Read(q, Some([])) !in p.ready)
      && (!t.running ==> t.calls == s.calls)
  {
    hide Drain, Killed, KillAfter, Grace, Chunks;
    var pressed := BeforeReading(s, p, cfg);
    assert pressed.calls == s.calls && pressed.open == s.open && pressed.running;
    DrainExactly(pressed, p.ready);
    DrainKeeps(pressed, p.ready);
  }

  // ------------------------------------------------------------------ what a confirmation rests on

  /** The bytes passed to `on_bytes` for one stream, in order. */
  function Received(calls: seq<(Stream, Bytes)>, stream: Stream): Bytes {
    if calls == [] then []
    else
      var last := calls[|calls| - 1];
      Received(calls[..|calls| - 1], stream) + if last.0 == stream then last.1 else []
  }

  /** A read of a registered pipe: the next bytes written to it, or its end after all of them. */
  predicate FitsOne(s: State, r: Read, written: Stream -> Bytes) {
    && r.stream in s.open
    && match r.chunk
       case None => true
       case Some(chunk) =>
         if chunk == [] then Received(s.calls, r.stream) == written(r.stream)
         else Received(s.calls, r.stream) + chunk <= written(r.stream)
  }

  predicate Fits(s: State, ready: seq<Read>, written: Stream -> Bytes) {
    forall k :: 0 <= k < |ready| ==> FitsOne(Drain(s, ready[..k]), ready[k], written)
  }

  /** Every turn reads the pipes as the operating system delivers what the children wrote. */
  predicate Honest(cfg: Config, polls: seq<Poll>, written: Stream -> Bytes) {
    forall i :: 0 <= i < |polls| ==>
      Fits(BeforeReading(Run(cfg, polls[..i]), polls[i], cfg), polls[i].ready, written)
  }

  predicate Piped(s: State, written: Stream -> Bytes) {
    forall stream :: Received(s.calls, stream) <= written(stream)
      && (stream !in s.open ==> Received(s.calls, stream) == written(stream))
  }

  lemma TakePiped(s: State, r: Read, written: Stream -> Bytes)
    requires Piped(s, written) && FitsOne(s, r, written)
    ensures Piped(Take(s, r), written)
  {
  }

  lemma {:induction false} DrainPiped(s: State, ready: seq<Read>, written: Stream -> Bytes)
    requires Piped(s, written) && Fits(s, ready, written)
    ensures Piped(Drain(s, ready), written)
  {
    if ready != [] {
      hide Piped, FitsOne, Take;
      var most := ready[..|ready| - 1];
      forall k | 0 <= k < |most| ensures FitsOne(Drain(s, most[..k]), most[k], written) {
        assert most[..k] == ready[..k];
      }
      DrainPiped(s, most, written);
      TakePiped(Drain(s, most), ready[|most|], written);
    }
  }

  lemma StepPiped(s: State, p: Poll, cfg: Config, written: Stream -> Bytes)
    requires Piped(s, written) && s.running
    requires Fits(BeforeReading(s, p, cfg), p.ready, written)
    ensures Piped(Step(s, p, cfg), written)
  {
    hide Drain, Killed, KillAfter, Grace, Fits, Received;
    var pressed := BeforeReading(s, p, cfg);
    assert pressed.calls == s.calls && pressed.open == s.open;
    DrainPiped(pressed, p.ready, written);
  }

  lemma {:induction false} RunPiped(cfg: Config, polls: seq<Poll>, written: Stream -> Bytes)
    requires Honest(cfg, polls, written)
    ensures Piped(Run(cfg, polls), written)
  {
    if polls == [] {
      forall stream ensures stream in INITIAL.open {
        assert stream == Stdout || stream == Stderr;
      }
    } else {
      hide Step, Piped, BeforeReading, Fits;
      var most, p := polls[..|polls| - 1], polls[|polls| - 1];
      forall i | 0 <= i < |most|
        ensures Fits(BeforeReading(Run(cfg, most[..i]), most[i], cfg), most[i].ready, written)
      {
        assert most[..i] == polls[..i];
      }
      RunPiped(cfg, most, written);
      if Run(cfg, most).running {
        StepPiped(Run(cfg, most), p, cfg, written);
      }
    }
  }

  lemma {:induction false} LastTurn(cfg: Config, polls: seq<Poll>) returns (k: nat)
    requires !Run(cfg, polls).running
    ensures k < |polls| && Run(cfg, polls[..k]).running && Run(cfg, polls) == Step(Run(cfg, polls[..k]), polls[k], cfg)
  {
    hide Step;
    var most := polls[..|polls| - 1];
    if Run(cfg, most).running {
      return |most|;
    }
    k := LastTurn(cfg, most);
    assert most[..k] == polls[..k];
  }

  /**
   * A confirmed end was seen in the last turn: the child reaped and its group gone. With no stop
   * reason it also means that no signal was sent and that each pipe gave all that was written to it.
   */
  lemma ConfirmedMeansClean(cfg: Config, polls: seq<Poll>, written: Stream -> Bytes, late: bool, waited: Option<int>)
      returns (k: nat)
    requires Clocked(cfg, polls) && Honest(cfg, polls, written) && !Run(cfg, polls).running
    requires Leave(Run(cfg, polls), late, waited).confirmed
    ensures k < |polls| && Run(cfg, polls[..k]).running
    ensures var o, p := Leave(Run(cfg, polls), late, waited), polls[k];
      && o.code.Some?
      && ((o.code == p.code && !p.group) || (o.code == p.lateCode && !p.lateGroup && o.signals == [Term, Kill]))
      && (o.reason.None? ==>
            && o.code == p.code && !p.group && o.signals == [] && !o.forced
            && forall stream :: Received(Run(cfg, polls).calls, stream) == written(stream))
  {
    RunKeeps(cfg, polls);
    RunPiped(cfg, polls, written);
    k := LastTurn(cfg, polls);
    EndOfTurn(Run(cfg, polls[..k]), polls[k], cfg);
    if GaveUp(Run(cfg, polls[..k]), polls[k], cfg) {
      GivingUpFollowsKill(cfg, polls, k);
      assert polls[..k + 1][..k] == polls[..k];
    }
  }

  lemma EndOfTurn(s: State, p: Poll, cfg: Config)
    requires s.running && !Step(s, p, cfg).running && Step(s, p, cfg).confirmed
    ensures var t := Step(s, p, cfg);
      && if GaveUp(s, p, cfg) then t.code == p.lateCode && !p.lateGroup && t.stopped.Some?
         else t.code == p.code && !p.group && t.open == {}
  {
    hide Drain, Killed, KillAfter, Grace;
    DrainKeeps(BeforeReading(s, p, cfg), p.ready);
  }
}
