/**
 * The correlator that releases one assistant message's public text exactly once and its private
 * text never (`_Message` and the message handlers of `ContractStreamDecoder`).
 */
module Messages {
  import opened Prelude
  import opened Lines

  type Digest<!D> = Bytes -> D

  /** The `phase` member of a native event: missing, null, not text, or a name. */
  datatype PhaseField = Absent | Null | NotText | Named(name: string)

  /** The native events that reach one message; contents are already encoded. */
  datatype Event =
    | Start(phase: PhaseField)
    | Delta(content: Bytes, phase: PhaseField)
    | Final(content: Bytes, phase: PhaseField)

  const PUBLIC: set<string> := {"commentary", "final_answer"}

  /** What happens to a line still held back: kept, withdrawn, or released by a `finish`. */
  datatype Held = Open | Withdrawn | Flushed

  /** A message's state, with all the bytes its deltas carried and all the bytes its framer was fed. */
  datatype State = State(
    phase: Option<string>, known: bool, suppressed: bool, streamed: bool, complete: bool,
    deltas: Bytes, fed: Bytes, held: Held)

  const INITIAL := State(None, false, false, false, false, [], [], Open)

  predicate Public(s: State) { s.phase.Some? && s.phase.value in PUBLIC && !s.suppressed }

  function NameOf(f: PhaseField): Option<string> {
    if f.Named? then Some(f.name) else None
  }

  predicate Invalid(f: PhaseField) { f.NotText? || (f.Named? && |f.name| > 64) }

  /** `_message_phase`. */
  function SetPhase(s: State, f: PhaseField): State {
    if f.Absent? then s
    else
      var t := s.(suppressed := s.suppressed || Invalid(f) || (s.known && NameOf(f) != s.phase),
                  known := true, phase := NameOf(f));
      if Public(t) then t else t.(held := Withdrawn)
  }

  /** One event of `_message_start`, `_delta` or `_message`. */
  function Step<D(==)>(s: State, e: Event, sha: Digest<D>): State {
    if s.complete then s
    else
      var t := SetPhase(s, e.phase);
      match e
      case Start(_) => t
      case Delta(content, _) =>
        var stream := Public(t) && (|t.deltas| == 0 || t.streamed);
        var u := t.(deltas := t.deltas + content);
        if stream then u.(streamed := true, fed := t.fed + content) else u
      case Final(content, _) =>
        if t.suppressed || (t.known && !Public(t)) then t.(complete := true)
        else if !t.streamed then t.(complete := true, fed := t.fed + content, held := Flushed)
        else if |t.deltas| <= |content| && sha(content[..|t.deltas|]) == sha(t.deltas)
        then t.(complete := true, fed := t.fed + content[|t.deltas|..], held := Flushed)
        else t.(complete := true, held := Withdrawn)
  }

  function Run<D(==)>(s: State, events: seq<Event>, sha: Digest<D>): State {
    if events == [] then s
    else Step(Run(s, events[..|events| - 1], sha), events[|events| - 1], sha)
  }

  /** The framer callbacks made in a state. */
  function Emitted(limit: nat, s: State): seq<Lines.Event> {
    if s.held.Flushed? then Framed(limit, s.fed) else Released(limit, s.fed)
  }

  /** The decoder's `finish` for this message. */
  function Close(s: State): State {
    if Public(s) && s.held.Open? then s.(held := Flushed) else s
  }

  lemma PhaseKeeps(s: State, f: PhaseField)
    ensures var t := SetPhase(s, f);
            t.complete == s.complete && t.streamed == s.streamed && t.deltas == s.deltas && t.fed == s.fed
  {
  }

  // ------------------------------------------------------------------ the correlator

  class Message<!D(==)> {
    const lines: Framer
    var phase: Option<string>
    var known: bool
    var suppressed: bool
    var streamed: bool
    var complete: bool
    /** What the running digest has absorbed; only its digest and its length are read. */
    var absorbed: Bytes
    var length: nat
    ghost var fed: Bytes
    ghost var held: Held

    ghost function Abs(): State
      reads this
    {
      State(phase, known, suppressed, streamed, complete, absorbed, fed, held)
    }

    ghost predicate Valid()
      reads this, lines
    {
      && lines.Valid() && length == |absorbed| && Consistent(Abs())
      && (held.Open? ==> lines.earlier == [] && lines.fed == fed)
      && (!held.Open? ==> lines.pending == [] && lines.events == Emitted(lines.limit, Abs()))
    }

    constructor (limit: int)
      ensures Valid() && fresh(lines) && Abs() == INITIAL
    {
      lines := new Framer(limit);
      phase, known, suppressed, streamed, complete := None, false, false, false, false;
      absorbed, length, fed, held := [], 0, [], Open;
    }

    method UpdatePhase(f: PhaseField)
      requires Valid() && !complete
      modifies this, lines
      ensures Valid() && Abs() == SetPhase(old(Abs()), f)
    {
      hide Released, Framed, Tail, Split, StripCr, Consistent;
      PhaseConsistent(Abs(), f);
      if f.Absent? {
        return;
      }
      if Invalid(f) {
        suppressed := true;
      } else if known && NameOf(f) != phase {
        suppressed := true;
      }
      known := true;
      phase := NameOf(f);
      if !(phase.Some? && phase.value in PUBLIC) || suppressed {
        lines.Clear();
        held := Withdrawn;
      }
    }

    method OnStart(f: PhaseField, sha: Digest<D>)
      requires Valid()
      modifies this, lines
      ensures Valid() && Abs() == Step(old(Abs()), Start(f), sha)
    {
      if !complete {
        UpdatePhase(f);
      }
    }

    method OnDelta(content: Bytes, f: PhaseField, sha: Digest<D>)
      requires Valid()
      modifies this, lines
      ensures Valid() && Abs() == Step(old(Abs()), Delta(content, f), sha)
    {
      hide Released, Framed, Tail, Split, StripCr, Consistent, SetPhase;
      StepConsistent(Abs(), Delta(content, f), sha);
      PhaseKeeps(Abs(), f);
      if complete {
        return;
      }
      UpdatePhase(f);
      if known ==> Public(Abs()) { OpenWhenShown(Abs()); }
      var allowStream := phase.Some? && phase.value in PUBLIC && !suppressed;
      var canStream := allowStream && (length == 0 || streamed);
      absorbed := absorbed + content;
      length := length + |content|;
      if canStream {
        streamed := true;
        lines.Feed(content);
        fed := fed + content;
      }
    }

    method OnFinal(content: Bytes, f: PhaseField, sha: Digest<D>)
      requires Valid()
      modifies this, lines
      ensures Valid() && Abs() == Step(old(Abs()), Final(content, f), sha)
    {
      hide Released, Framed, Tail, Split, StripCr, Consistent, SetPhase;
      StepConsistent(Abs(), Final(content, f), sha);
      PhaseKeeps(Abs(), f);
      if complete {
        return;
      }
      UpdatePhase(f);
      if known ==> Public(Abs()) { OpenWhenShown(Abs()); }
      if suppressed || (known && !(phase.Some? && phase.value in PUBLIC)) {
        complete := true;
        return;
      }
      var prefix := if length <= |content| then content[..length] else content;
      if !streamed {
        lines.Feed(content);
        fed := fed + content;
      } else if |prefix| == length && sha(prefix) == sha(absorbed) {
        lines.Feed(content[length..]);
        fed := fed + content[length..];
      } else {
        lines.Clear();
        held := Withdrawn;
      }
      lines.Finish();
      if !held.Withdrawn? {
        held := Flushed;
      }
      complete := true;
    }

    method Finish()
      requires Valid()
      modifies this, lines
      ensures Abs() == Close(old(Abs())) && lines.events == Emitted(lines.limit, Abs())
    {
      hide Released, Framed, Tail, Split, StripCr;
      if phase.Some? && phase.value in PUBLIC && !suppressed {
        lines.Finish();
        if held.Open? {
          held := Flushed;
        }
      }
    }
  }

  // ------------------------------------------------------------------ over every event sequence

  /** What every event keeps. */
  ghost predicate Consistent(s: State) {
    && (s.streamed || Public(s) ==> s.known)
    && (!s.complete ==> !s.held.Flushed?)
    && (!s.complete && s.held.Withdrawn? ==> s.known && !Public(s))
    && (!s.complete && !s.streamed ==> s.fed == [])
    && (!s.complete && s.streamed && Public(s) ==> s.fed == s.deltas)
  }

  lemma {:induction false} RunAppend<D>(s: State, a: seq<Event>, b: seq<Event>, sha: Digest<D>)
    ensures Run(s, a + b, sha) == Run(Run(s, a, sha), b, sha)
  {
    if b == [] {
      assert a + b == a;
    } else {
      RunAppend(s, a, b[..|b| - 1], sha);
      assert (a + b)[..|a + b| - 1] == a + b[..|b| - 1];
    }
  }

  lemma StepConsistent<D>(s: State, e: Event, sha: Digest<D>)
    requires Consistent(s)
    ensures Consistent(Step(s, e, sha))
  {
  }

  lemma PhaseConsistent(s: State, f: PhaseField)
    requires Consistent(s) && !s.complete
    ensures Consistent(SetPhase(s, f)) && !s.held.Flushed?
  {
  }

  lemma OpenWhenShown(s: State)
    requires Consistent(s) && !s.complete && (s.known ==> Public(s))
    ensures s.held.Open?
  {
  }

  lemma {:induction false} RunConsistent<D>(s: State, events: seq<Event>, sha: Digest<D>)
    requires Consistent(s)
    ensures Consistent(Run(s, events, sha))
  {
    hide Step, Consistent;
    if events != [] {
      var init := events[..|events| - 1];
      RunConsistent(s, init, sha);
      StepConsistent(Run(s, init, sha), events[|events| - 1], sha);
    }
  }

  /** A message that is finished, or known not to be public, is never fed again. */
  ghost predicate Sealed(s: State) {
    s.complete || (s.held.Withdrawn? && s.known && !Public(s))
  }

  lemma {:induction false} SealedForever<D>(s: State, events: seq<Event>, sha: Digest<D>)
    requires Consistent(s) && Sealed(s)
    ensures var t := Run(s, events, sha);
            Sealed(t) && Consistent(t) && t.fed == s.fed && t.held == s.held && (Public(t) ==> Public(s))
  {
    hide Step, Consistent, Sealed;
    if events != [] {
      var init := events[..|events| - 1];
      SealedForever(s, init, sha);
      SealedStep(Run(s, init, sha), events[|events| - 1], sha);
    }
  }

  lemma SealedStep<D>(s: State, e: Event, sha: Digest<D>)
    requires Consistent(s) && Sealed(s)
    ensures var t := Step(s, e, sha);
            Sealed(t) && Consistent(t) && t.fed == s.fed && t.held == s.held && (Public(t) ==> Public(s))
  {
  }

  /** Everything a message has made visible once `events` have arrived and the decoder is finished. */
  function Visible<D(==)>(limit: nat, events: seq<Event>, sha: Digest<D>): seq<Lines.Event> {
    Emitted(limit, Close(Run(INITIAL, events, sha)))
  }

  /**
   * Private text never leaves: when the first phase a message is given is not a public one, no
   * sequence of events makes any of its text visible.
   */
  lemma PrivateNeverLeaves<D>(limit: nat, before: seq<Event>, e: Event, after: seq<Event>, sha: Digest<D>)
    requires forall b :: b in before ==> b.phase.Absent? && !b.Final?
    requires !e.phase.Absent? && !(e.phase.Named? && e.phase.name in PUBLIC)
    ensures Visible(limit, before + [e] + after, sha) == []
  {
    hide Step, Consistent, Released, Framed, Public, Sealed;
    Unphased(before, sha);
    var s := Run(INITIAL, before, sha);
    StartConsistent();
    RunConsistent(INITIAL, before, sha);
    var t := Step(s, e, sha);
    assert Run(INITIAL, before + [e], sha) == t by {
      assert (before + [e])[..|before + [e]| - 1] == before;
    }
    RunAppend(INITIAL, before + [e], after, sha);
    StepConsistent(s, e, sha);
    PrivateSeals(s, e, sha);
    SealedForever(t, after, sha);
    NothingReleased(limit);
  }

  /** The first phase given, when it is not a public one, withdraws a message for good. */
  lemma PrivateSeals<D>(s: State, e: Event, sha: Digest<D>)
    requires !s.known && !s.complete && s.fed == [] && s.held.Open?
    requires !e.phase.Absent? && !(e.phase.Named? && e.phase.name in PUBLIC)
    ensures var t := Step(s, e, sha);
            Sealed(t) && t.fed == [] && t.held.Withdrawn? && !Public(t)
  {
  }

  /** Deltas without a phase are held, not streamed. */
  lemma {:induction false} Unphased<D>(events: seq<Event>, sha: Digest<D>)
    requires forall b :: b in events ==> b.phase.Absent? && !b.Final?
    ensures var s := Run(INITIAL, events, sha);
            && !s.known && s.phase.None? && !s.suppressed && !s.streamed && !s.complete
            && s.fed == [] && s.held.Open? && s.deltas == Deltas(events)
  {
    if events != [] {
      Unphased(events[..|events| - 1], sha);
    }
  }

  // ------------------------------------------------------------------ what is streamed

  /** All that the deltas among these events carry, in order. */
  function Deltas(events: seq<Event>): Bytes {
    if events == [] then []
    else
      var last := events[|events| - 1];
      Deltas(events[..|events| - 1]) + if last.Delta? then last.content else []
  }

  /** An event that leaves a message with this phase as it is. */
  predicate Agrees(e: Event, phase: PhaseField) { !e.Final? && (e.phase.Absent? || e.phase == phase) }

  /** The state of a message since it got its public phase, when that is all it has been told. */
  ghost predicate Streaming(s: State, f: PhaseField, before: seq<Event>, since: seq<Event>) {
    && Public(s) && s.phase == NameOf(f) && s.known && !s.complete && s.held.Open?
    && s.deltas == Deltas(before) + Deltas(since)
    && s.fed == (if Deltas(before) == [] then Deltas(since) else [])
    && (s.streamed <==> Deltas(before) == [] && exists i :: 0 <= i < |since| && since[i].Delta?)
  }

  /**
   * Until its final message, a message with a public phase streams each delta as it comes, from the
   * event that gives the phase on, unless some text came before that: then nothing is streamed.
   */
  lemma {:induction false} StreamsExactly<D>(before: seq<Event>, e: Event, more: seq<Event>, sha: Digest<D>)
    requires forall b :: b in before ==> b.phase.Absent? && !b.Final?
    requires !e.Final? && e.phase.Named? && e.phase.name in PUBLIC && forall m :: m in more ==> Agrees(m, e.phase)
    ensures Streaming(Run(INITIAL, before + [e] + more, sha), e.phase, before, [e] + more)
  {
    hide Step, Streaming;
    var events := before + [e] + more;
    if more == [] {
      Unphased(before, sha);
      assert events[..|events| - 1] == before;
      FirstStreams(Run(INITIAL, before, sha), before, e, sha);
      assert [e] + more == [e];
    } else {
      var most, last := more[..|more| - 1], more[|more| - 1];
      StreamsExactly(before, e, most, sha);
      assert events[..|events| - 1] == before + [e] + most;
      assert [e] + more == [e] + most + [last];
      NextStreams(Run(INITIAL, before + [e] + most, sha), e.phase, before, [e] + most, last, sha);
    }
  }

  lemma FirstStreams<D>(s: State, before: seq<Event>, e: Event, sha: Digest<D>)
    requires !s.known && !s.suppressed && !s.streamed && !s.complete
    requires s.fed == [] && s.held.Open? && s.deltas == Deltas(before)
    requires !e.Final? && e.phase.Named? && e.phase.name in PUBLIC
    ensures Streaming(Step(s, e, sha), e.phase, before, [e])
  {
    assert [e][..0] == [];
    assert e.Delta? ==> [e][0].Delta?;
  }

  lemma NextStreams<D>(s: State, f: PhaseField, before: seq<Event>, since: seq<Event>, e: Event, sha: Digest<D>)
    requires Streaming(s, f, before, since) && Agrees(e, f) && since != [] && f.Named? && |f.name| <= 64
    ensures Streaming(Step(s, e, sha), f, before, since + [e])
  {
    var longer := since + [e];
    assert longer[..|since|] == since && longer[|since|] == e;
    assert forall i :: 0 <= i < |since| ==> longer[i] == since[i];
    NoDeltas(since);
  }

  lemma {:induction false} NoDeltas(events: seq<Event>)
    ensures (forall i :: 0 <= i < |events| ==> !events[i].Delta?) ==> Deltas(events) == []
  {
    if events != [] {
      NoDeltas(events[..|events| - 1]);
    }
  }

  /** So a public message whose decoder is finished early has shown exactly the lines of what it was fed. */
  lemma StreamedIsShown<D>(limit: nat, before: seq<Event>, e: Event, more: seq<Event>, sha: Digest<D>)
    requires forall b :: b in before ==> b.phase.Absent? && !b.Final?
    requires !e.Final? && e.phase.Named? && e.phase.name in PUBLIC && forall m :: m in more ==> Agrees(m, e.phase)
    ensures Visible(limit, before + [e] + more, sha) ==
            if Deltas(before) == [] then Framed(limit, Deltas([e] + more)) else []
  {
    hide Run, Deltas, Released, Framed;
    StreamsExactly(before, e, more, sha);
    NothingFramed(limit);
  }

  lemma NothingFramed(limit: nat)
    ensures Framed(limit, []) == []
  {
    NothingReleased(limit);
  }

  /** A message that is given no phase shows nothing before its final message. */
  lemma UnphasedIsHidden<D>(limit: nat, events: seq<Event>, sha: Digest<D>)
    requires forall b :: b in events ==> b.phase.Absent? && !b.Final?
    ensures Visible(limit, events, sha) == []
  {
    hide Released, Framed;
    Unphased(events, sha);
    NothingReleased(limit);
  }

  /**
   * Once a message is known not to be public, or is suppressed by a bad or changed phase, no later
   * event adds to what was visible, and the line it held back is never released.
   */
  lemma NothingAfterSuppression<D>(limit: nat, before: seq<Event>, after: seq<Event>, sha: Digest<D>)
    requires var s := Run(INITIAL, before, sha); !s.complete && s.known && !Public(s)
    ensures Visible(limit, before + after, sha) == Released(limit, Run(INITIAL, before, sha).fed)
  {
    hide Step;
    var s := Run(INITIAL, before, sha);
    RunConsistent(INITIAL, before, sha);
    KnownPrivateIsWithdrawn(before, sha);
    RunAppend(INITIAL, before, after, sha);
    SealedForever(s, after, sha);
  }

  lemma {:induction false} KnownPrivateIsWithdrawn<D>(events: seq<Event>, sha: Digest<D>)
    ensures var s := Run(INITIAL, events, sha); !s.complete && s.known && !Public(s) ==> s.held.Withdrawn?
  {
    if events != [] {
      KnownPrivateIsWithdrawn(events[..|events| - 1], sha);
    }
  }

  /** What a message that may be shown has fed once its final content has come, and what becomes of its last line. */
  lemma FinalFeeds<D>(s: State, c: Bytes, f: PhaseField, sha: Digest<D>)
    requires Consistent(s)
    requires var p := SetPhase(s, f);
             && !p.complete && !p.suppressed && (p.known ==> Public(p))
             && (|p.deltas| <= |c| && sha(c[..|p.deltas|]) == sha(p.deltas) ==> p.deltas <= c)
    ensures var p, t := SetPhase(s, f), Step(s, Final(c, f), sha);
            && t.complete && p.streamed == s.streamed && p.deltas == s.deltas
            && t.fed == (if !p.streamed || p.deltas <= c then c else p.deltas)
            && t.held == if !p.streamed || p.deltas <= c then Flushed else Withdrawn
  {
    var p := SetPhase(s, f);
    if p.streamed && p.deltas <= c {
      assert c[..|p.deltas|] == p.deltas;
      assert p.deltas + c[|p.deltas|..] == c;
    }
  }

  /**
   * Public text leaves exactly once. When a message that may be shown completes with content `c`,
   * then whatever follows: if nothing was streamed, or `c` extends the streamed deltas, the bytes fed
   * are exactly `c` and the visible lines are exactly its lines; and otherwise the deltas' complete
   * lines stand alone. Only a digest collision on that one prefix is excluded.
   */
  lemma PublicLeavesOnce<D>(limit: nat, before: seq<Event>, c: Bytes, f: PhaseField, after: seq<Event>, sha: Digest<D>)
    requires var s := SetPhase(Run(INITIAL, before, sha), f);
             && !s.complete && !s.suppressed && (s.known ==> Public(s))
             && (|s.deltas| <= |c| && sha(c[..|s.deltas|]) == sha(s.deltas) ==> s.deltas <= c)
    ensures var s := Run(INITIAL, before, sha);
            var t := Close(Run(INITIAL, before + [Final(c, f)] + after, sha));
            && t.fed == (if !s.streamed || s.deltas <= c then c else s.deltas)
            && Emitted(limit, t) == if !s.streamed || s.deltas <= c then Framed(limit, c) else Released(limit, s.deltas)
  {
    hide Released, Framed, Step, SetPhase, Consistent;
    var s, last := Run(INITIAL, before, sha), [Final(c, f)];
    assert Consistent(INITIAL) by { StartConsistent(); }
    RunConsistent(INITIAL, before, sha);
    assert (before + last)[..|before + last| - 1] == before;
    var t := Run(INITIAL, before + last, sha);
    RunConsistent(INITIAL, before + last, sha);
    FinalFeeds(s, c, f, sha);
    RunAppend(INITIAL, before + last, after, sha);
    SealedForever(t, after, sha);
  }

  lemma StartConsistent()
    ensures Consistent(INITIAL)
  {
  }

  // ------------------------------------------------------------------ what a message's phase history decides

  /** The phases its events gave a message, in order. */
  function Phases(events: seq<Event>): (p: seq<PhaseField>)
    ensures forall i :: 0 <= i < |p| ==> !p[i].Absent?
  {
    if events == [] then []
    else
      var init, f := Phases(events[..|events| - 1]), events[|events| - 1].phase;
      if f.Absent? then init else init + [f]
  }

  /** Every phase given is the same valid one. */
  predicate Steady(phases: seq<PhaseField>) {
    forall i :: 0 <= i < |phases| ==>
      !phases[i].NotText? && (phases[i].Named? ==> |phases[i].name| <= 64) && phases[i] == phases[0]
  }

  lemma SamePhase(f: PhaseField, g: PhaseField)
    ensures !Invalid(f) && !Invalid(g) && !f.Absent? && !g.Absent? ==> (NameOf(f) == NameOf(g) <==> f == g)
  {
  }

  lemma SteadyMore(p: seq<PhaseField>, f: PhaseField)
    ensures Steady(p + [f]) <==> Steady(p) && !Invalid(f) && (p == [] || f == p[0])
  {
    var q := p + [f];
    assert q[|p|] == f;
    assert forall i :: 0 <= i < |p| ==> q[i] == p[i];
  }

  /**
   * A message's state when the phases it was given are exactly `p`: suppressed exactly when they are not
   * steady, and public exactly when they are, with a public name.
   */
  ghost predicate Given(s: State, p: seq<PhaseField>) {
    && (s.known <==> p != [])
    && (s.suppressed <==> !Steady(p))
    && (Public(s) <==> p != [] && Steady(p) && p[0].Named? && p[0].name in PUBLIC)
    && (Steady(p) && p != [] ==> s.phase == NameOf(p[0]))
  }

  predicate Done(events: seq<Event>) { exists i :: 0 <= i < |events| && events[i].Final? }

  /** The events up to and with the first final message; what comes after it is not heard. */
  function Heard(events: seq<Event>): (h: seq<Event>)
    ensures h <= events && (!Done(events) ==> h == events)
    ensures Done(events) ==> h != [] && h[|h| - 1].Final? && !Done(h[..|h| - 1])
  {
    if events == [] then []
    else
      var init := events[..|events| - 1];
      if Done(init) then Heard(init) else events
  }

  /** The phases heard decide a message's state, and it is complete exactly when its final message has come. */
  lemma {:induction false} PhaseHistory<D>(events: seq<Event>, sha: Digest<D>)
    ensures var s, p := Run(INITIAL, events, sha), Phases(Heard(events));
            (s.complete <==> Done(events)) && Given(s, p)
  {
    hide Step, Steady, Invalid, SetPhase;
    if events != [] {
      var init, e := events[..|events| - 1], events[|events| - 1];
      PhaseHistory(init, sha);
      assert events == init + [e];
      if !Done(init) {
        assert Heard(init) == init && Heard(events) == events;
        StepHears(Run(INITIAL, init, sha), e, sha);
        PhaseGiven(Run(INITIAL, init, sha), Phases(init), e.phase);
      } else {
        AfterTheFinal(Run(INITIAL, init, sha), e, sha);
      }
    } else {
      NothingHeard();
    }
  }

  lemma NothingHeard()
    ensures Steady([])
  {
  }

  lemma AfterTheFinal<D>(s: State, e: Event, sha: Digest<D>)
    requires s.complete
    ensures Step(s, e, sha) == s
  {
  }

  lemma StepHears<D>(s: State, e: Event, sha: Digest<D>)
    requires !s.complete
    ensures var t, u := Step(s, e, sha), SetPhase(s, e.phase);
            t.complete == e.Final? && t.known == u.known && t.suppressed == u.suppressed && t.phase == u.phase
  {
  }

  lemma PhaseGiven(s: State, p: seq<PhaseField>, f: PhaseField)
    requires Given(s, p) && forall g :: g in p ==> !g.Absent?
    ensures Given(SetPhase(s, f), if f.Absent? then p else p + [f])
  {
    SteadyMore(p, f);
    if Steady(p) && p != [] {
      SamePhase(f, p[0]);
    }
  }
}
