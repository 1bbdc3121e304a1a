/** Supervising a child's process group: deadline, grace, SIGTERM then SIGKILL, and what "confirmed" means. */
module Process {
  import opened Prelude

  datatype Stream = Stdout | Stderr
  datatype Reason = Timeout | Lingering | Cancelled
  datatype Signal = Term | Kill

  /** A signal sent to the group, with the clock reading it followed. */
  datatype Sent = Sent(signal: Signal, at: real)

  /** One ready pipe: bytes, end of file (no bytes), or nothing after all. */
  datatype Read = Read(stream: Stream, chunk: Option<Bytes>)

  /** What the world shows one turn of the loop. */
  datatype Poll = Poll(
    interrupted: bool,       // an interrupt has been requested
    asked: real,             // the clock, should `cancel` read it
    now: real,               // the clock of this turn
    code: Option<int>,       // the child's exit code, once reaped
    group: bool,             // the process group still exists
    ready: seq<Read>,        // what the selector finds, in its order
    lateCode: Option<int>,   // both again, should this turn give up
    lateGroup: bool)

  datatype Config = Config(timeout: real, cleanup: real, started: real)

  datatype State = State(
    reason: Option<Reason>,
    stopped: Option<real>,
    sent: seq<Sent>,
    exited: Option<real>,
    code: Option<int>,
    open: set<Stream>,
    calls: seq<(Stream, Bytes)>,   // the calls of `on_bytes`, in order
    confirmed: bool,
    running: bool)

  const INITIAL := State(None, None, [], None, None, {Stdout, Stderr}, [], false, true)

  /** `post_exit_grace`: the final third is kept for forcing descendants out. */
  function Grace(cleanup: real): real { cleanup * 2.0 / 3.0 }

  function KillAfter(reason: Option<Reason>, cleanup: real): real {
    var grace := if reason == Some(Lingering) then Grace(cleanup) else 0.0;
    grace + (cleanup - grace) / 2.0
  }

  // ------------------------------------------------------------------ one turn

  function Cancel(s: State, p: Poll): State {
    if !p.interrupted || s.reason == Some(Cancelled) then s
    else if s.stopped.Some? then s.(reason := Some(Cancelled))
    else s.(reason := Some(Cancelled), stopped := Some(p.asked), sent := s.sent + [Sent(Term, p.asked)])
  }

  function Observe(s: State, p: Poll): State {
    s.(code := p.code, exited := if p.code.Some? && s.exited.None? then Some(p.now) else s.exited)
  }

  predicate Clean(s: State, p: Poll) {
    p.code.Some? && !p.group && s.open == {}
  }

  function Stop(s: State, p: Poll, cfg: Config): State {
    if s.stopped.Some? then s
    else if p.now - cfg.started >= cfg.timeout then
      s.(reason := Some(Timeout), stopped := Some(p.now), sent := s.sent + [Sent(Term, p.now)])
    else if s.exited.Some? && p.group && p.now - s.exited.value >= Grace(cfg.cleanup) then
      s.(reason := Some(Lingering), stopped := s.exited, sent := s.sent + [Sent(Term, p.now)])
    else s
  }

  predicate Killed(s: State) {
    exists i :: 0 <= i < |s.sent| && s.sent[i].signal == Kill
  }

  function Escalate(s: State, p: Poll, cfg: Config): State {
    if s.stopped.Some? && p.now - s.stopped.value >= KillAfter(s.reason, cfg.cleanup) && !Killed(s)
    then s.(sent := s.sent + [Sent(Kill, p.now)]) else s
  }

  predicate GivesUp(s: State, p: Poll, cfg: Config) {
    s.stopped.Some? && p.now - s.stopped.value >= cfg.cleanup
  }

  function Take(s: State, r: Read): State {
    match r.chunk
    case None => s
    case Some(chunk) =>
      if chunk != [] then s.(calls := s.calls + [(r.stream, chunk)]) else s.(open := s.open - {r.stream})
  }

  function Drain(s: State, ready: seq<Read>): State {
    if ready == [] then s else Take(Drain(s, ready[..|ready| - 1]), ready[|ready| - 1])
  }

  function Step(s: State, p: Poll, cfg: Config): State {
    var seen := Observe(Cancel(s, p), p);
    if Clean(seen, p) then seen.(confirmed := true, running := false)
    else
      var pressed := Escalate(Stop(seen, p, cfg), p, cfg);
      if GivesUp(pressed, p, cfg) then
        pressed.(code := p.lateCode, confirmed := p.lateCode.Some? && !p.lateGroup, running := false)
      else Drain(pressed, p.ready)
  }

  /** The loop's state after these turns, ended or still running. */
  function Run(cfg: Config, polls: seq<Poll>): State {
    if polls == [] then INITIAL
    else
      var s := Run(cfg, polls[..|polls| - 1]);
      if s.running then Step(s, polls[|polls| - 1], cfg) else s
  }

  lemma {:induction false} RunStays(cfg: Config, polls: seq<Poll>, k: nat)
    requires k <= |polls| && !Run(cfg, polls[..k]).running
    ensures Run(cfg, polls) == Run(cfg, polls[..k])
  {
    if k == |polls| {
      assert polls[..k] == polls;
    } else {
      assert polls[..|polls| - 1][..k] == polls[..k];
      RunStays(cfg, polls[..|polls| - 1], k);
    }
  }

  // ------------------------------------------------------------------ the whole call

  datatype Observation = Observation(
    code: Option<int>,
    reason: Option<Reason>,
    signals: seq<Signal>,
    confirmed: bool,
    unstarted: bool,   // the operating system refused to start the child
    forced: bool)      // a last, unrecorded SIGKILL was sent on the way out

  function Names(sent: seq<Sent>): (names: seq<Signal>)
    ensures |names| == |sent| && forall i :: 0 <= i < |sent| ==> names[i] == sent[i].signal
  {
    seq(|sent|, i requires 0 <= i < |sent| => sent[i].signal)
  }

  /** Leaving the loop: a group not confirmed gone is killed, and a late interrupt is the reason. */
  function Leave(s: State, late: bool, waited: Option<int>): Observation {
    Observation(if s.confirmed then s.code else waited,
                if late then Some(Cancelled) else s.reason,
                Names(s.sent), s.confirmed, false, !s.confirmed)
  }

  /**
   * `_supervise_posix` with callbacks that return. `polls` is what the world shows the loop, `late`
   * whether an interrupt has been requested by the time it is over, and `waited` the exit code, if
   * any, of the final wait. None where the loop is still running after the last of the polls.
   */
  method Supervise(cfg: Config, starts: bool, polls: seq<Poll>, late: bool, waited: Option<int>)
      returns (result: Option<Observation>)
    ensures cfg.timeout <= 0.0 ==> result == Some(Observation(None, Some(Timeout), [], true, false, false))
    ensures cfg.timeout > 0.0 && !starts ==> result == Some(Observation(None, None, [], true, true, false))
    ensures cfg.timeout > 0.0 && starts ==>
      result == if Run(cfg, polls).running then None else Some(Leave(Run(cfg, polls), late, waited))
  {
    if cfg.timeout <= 0.0 {
      return Some(Observation(None, Some(Timeout), [], true, false, false));
    }
    if !starts {
      return Some(Observation(None, None, [], true, true, false));
    }
    var reason: Option<Reason>, stopped: Option<real>, exited: Option<real> := None, None, None;
    var sent: seq<Sent>, calls: seq<(Stream, Bytes)> := [], [];
    var code: Option<int>, open, confirmed := None, {Stdout, Stderr}, false;
    var i, running := 0, true;
    while i < |polls| && running
      invariant 0 <= i <= |polls|
      invariant State(reason, stopped, sent, exited, code, open, calls, confirmed, running) == Run(cfg, polls[..i])
    {
      hide Drain, Run, Stop, Escalate, Cancel;
      var p := polls[i];
      ghost var before := State(reason, stopped, sent, exited, code, open, calls, confirmed, running);
      assert Run(cfg, polls[..i + 1]) == Step(before, p, cfg) by { RunStep(cfg, polls, i); }
      i := i + 1;
      reason, stopped, sent := Ask(p, before, reason, stopped, sent);
      code := p.code;
      if code.Some? && exited.None? {
        exited := Some(p.now);
      }
      ghost var seen := State(reason, stopped, sent, exited, code, open, calls, confirmed, running);
      assert seen == Observe(Cancel(before, p), p);
      if code.Some? && !p.group && open == {} {
        confirmed, running := true, false;
        continue;
      }
      reason, stopped, sent := Press(cfg, p, seen, reason, stopped, exited, sent);
      if stopped.Some? && p.now - stopped.value >= cfg.cleanup {
        code := p.lateCode;
        confirmed, running := code.Some? && !p.lateGroup, false;
        continue;
      }
      calls, open := Receive(Escalate(Stop(seen, p, cfg), p, cfg), p.ready, calls, open);
    }
    assert polls[..|polls|] == polls;
    if running {
      return None;
    }
    RunStays(cfg, polls, i);
    return Some(Leave(Run(cfg, polls), late, waited));
  }

  lemma RunStep(cfg: Config, polls: seq<Poll>, i: nat)
    requires i < |polls| && Run(cfg, polls[..i]).running
    ensures Run(cfg, polls[..i + 1]) == Step(Run(cfg, polls[..i]), polls[i], cfg)
  {
    assert polls[..i + 1][..i] == polls[..i];
  }

  /** Reading the interrupt request; `cancel` asks for the stop unless one is under way. */
  method Ask(p: Poll, ghost s: State, reason0: Option<Reason>, stopped0: Option<real>, sent0: seq<Sent>)
      returns (reason: Option<Reason>, stopped: Option<real>, sent: seq<Sent>)
    requires s.reason == reason0 && s.stopped == stopped0 && s.sent == sent0
    ensures s.(reason := reason, stopped := stopped, sent := sent) == Cancel(s, p)
  {
    reason, stopped, sent := reason0, stopped0, sent0;
    if p.interrupted && reason != Some(Cancelled) {
      reason := Some(Cancelled);
      if stopped.None? {
        stopped := Some(p.asked);
        sent := sent + [Sent(Term, p.asked)];
      }
    }
  }

  /** Deciding to stop, and killing once the stop has lasted. */
  method Press(cfg: Config, p: Poll, ghost s: State, reason0: Option<Reason>, stopped0: Option<real>,
               exited: Option<real>, sent0: seq<Sent>)
    returns (reason: Option<Reason>, stopped: Option<real>, sent: seq<Sent>)
    requires s.reason == reason0 && s.stopped == stopped0 && s.exited == exited && s.sent == sent0
    ensures s.(reason := reason, stopped := stopped, sent := sent) == Escalate(Stop(s, p, cfg), p, cfg)
  {
    reason, stopped, sent := reason0, stopped0, sent0;
    if stopped.None? {
      if p.now - cfg.started >= cfg.timeout {
        reason, stopped := Some(Timeout), Some(p.now);
        sent := sent + [Sent(Term, p.now)];
      } else if exited.Some? && p.group && p.now - exited.value >= Grace(cfg.cleanup) {
        reason, stopped := Some(Lingering), exited;
        sent := sent + [Sent(Term, p.now)];
      }
    }
    assert s.(reason := reason, stopped := stopped, sent := sent) == Stop(s, p, cfg);
    if stopped.Some? {
      var elapsed := p.now - stopped.value;
      if elapsed >= KillAfter(reason, cfg.cleanup) && forall k :: 0 <= k < |sent| ==> sent[k].signal != Kill {
        sent := sent + [Sent(Kill, p.now)];
      }
    }
  }

  /** The inner loop over the ready pipes. */
  method Receive(ghost s: State, ready: seq<Read>, calls0: seq<(Stream, Bytes)>, open0: set<Stream>)
      returns (calls: seq<(Stream, Bytes)>, open: set<Stream>)
    requires s.calls == calls0 && s.open == open0
    ensures s.(calls := calls, open := open) == Drain(s, ready)
  {
    calls, open := calls0, open0;
    for i := 0 to |ready|
      invariant s.(calls := calls, open := open) == Drain(s, ready[..i])
    {
      assert ready[..i + 1][..i] == ready[..i];
      var r := ready[i];
      if r.chunk.None? {
        continue;
      }
      if r.chunk.value != [] {
        calls := calls + [(r.stream, r.chunk.value)];
      } else {
        open := open - {r.stream};
      }
    }
    assert ready[..|ready|] == ready;
  }
}
