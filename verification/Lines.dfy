/** The bounded line framer of the native streams (`_Lines`). */
module Lines {
  import opened Prelude

  const LF: Byte := 10
  const CR: Byte := 13

  /** A callback, in the order it was made. */
  datatype Event = Line(text: Bytes) | Overflow

  // ------------------------------------------------------------------ the simple specification

  function StripCr(s: Bytes): Bytes {
    if s != [] && s[|s| - 1] == CR then s[..|s| - 1] else s
  }

  /** A terminated line: its text without one final CR, or one overflow when it is too long. */
  function Terminated(limit: nat, line: Bytes): Event {
    if |line| <= limit then Line(StripCr(line)) else Overflow
  }

  /** An unterminated tail before `finish`: only an overflow shows already. */
  function Unfinished(limit: nat, tail: Bytes): seq<Event> {
    if |tail| <= limit then [] else [Overflow]
  }

  /** What `finish` adds: a nonempty tail that fits, kept as it stands. */
  function Flushed(limit: nat, tail: Bytes): seq<Event> {
    if 0 < |tail| <= limit then [Line(tail)] else []
  }

  function Frames(limit: nat, parts: seq<Bytes>): (e: seq<Event>)
  {
    seq(|parts|, i requires 0 <= i < |parts| => Terminated(limit, parts[i]))
  }

  /** The callbacks due once `text` has been fed: one for each line break, and a tail's overflow. */
  function Released(limit: nat, text: Bytes): seq<Event> {
    var parts := Split(text, LF);
    Frames(limit, parts[..|parts| - 1]) + Unfinished(limit, parts[|parts| - 1])
  }

  function Tail(text: Bytes): (tail: Bytes)
    ensures LF !in tail
  {
    var parts := Split(text, LF);
    parts[|parts| - 1]
  }

  /** The text up to its last line break, unless its tail has overflowed already. */
  function Withdrawn(limit: nat, text: Bytes): Bytes {
    TailIsLast(text);
    if |Tail(text)| > limit then text else text[..|text| - |Tail(text)|]
  }

  /** Every callback of a stream that is fed `text` and then finished. */
  function Framed(limit: nat, text: Bytes): seq<Event> {
    Released(limit, text) + Flushed(limit, Tail(text))
  }

  // ------------------------------------------------------------------ the framer

  lemma NothingReleased(limit: nat)
    ensures Released(limit, []) == [] && Tail([]) == []
  {
  }

  lemma Cut(before: Bytes, chunk: Bytes, start: nat, end: nat)
    requires start <= end <= |chunk|
    ensures before + chunk[..start] + chunk[start..end] == before + chunk[..end]
    ensures end < |chunk| && chunk[end] == LF ==> before + chunk[..end] + [LF] == before + chunk[..end + 1]
  {
  }

  /** What the framer keeps once `text` has been fed: the callbacks due, and the unfinished line if it fits. */
  ghost predicate Tracks(limit: nat, earlier: seq<Event>, text: Bytes, pending: Bytes, discarding: bool,
                         events: seq<Event>) {
    && |pending| <= limit
    && events == earlier + Released(limit, text)
    && discarding == (|Tail(text)| > limit)
    && pending == if discarding then [] else Tail(text)
  }

  lemma CallbacksDue(limit: nat, earlier: seq<Event>, text: Bytes, pending: Bytes, discarding: bool, events: seq<Event>)
    requires Tracks(limit, earlier, text, pending, discarding, events)
    ensures events == earlier + Released(limit, text)
  {
  }

  lemma TracksSegment(limit: nat, earlier: seq<Event>, text: Bytes, pending: Bytes, discarding: bool,
                      events: seq<Event>, segment: Bytes)
    requires Tracks(limit, earlier, text, pending, discarding, events) && LF !in segment
    ensures var more := text + segment;
            if discarding then Tracks(limit, earlier, more, pending, true, events)
            else if |pending| + |segment| > limit then Tracks(limit, earlier, more, [], true, events + [Overflow])
            else Tracks(limit, earlier, more, pending + segment, false, events)
  {
    hide Released, Tail;
    TailSegment(limit, text, segment);
  }

  lemma TracksBreak(limit: nat, earlier: seq<Event>, text: Bytes, pending: Bytes, discarding: bool, events: seq<Event>)
    requires Tracks(limit, earlier, text, pending, discarding, events)
    ensures var released := if discarding then events else events + [Line(StripCr(pending))];
            Tracks(limit, earlier, text + [LF], [], false, released)
  {
    hide Released, Tail, StripCr;
    BreakLine(limit, text);
  }

  class Framer {
    const limit: nat
    var pending: Bytes
    var discarding: bool
    /** The callbacks made so far. */
    var events: seq<Event>
    /** The bytes fed since construction or the last `finish` or `Clear`. */
    ghost var fed: Bytes
    /** The callbacks made before that. */
    ghost var earlier: seq<Event>

    ghost predicate Valid()
      reads this
    {
      limit >= 1 && Tracks(limit, earlier, fed, pending, discarding, events)
    }

    constructor (limit: int)
      ensures Valid() && this.limit == (if limit > 1 then limit else 1)
      ensures events == [] && fed == [] && earlier == []
    {
      this.limit := if limit > 1 then limit else 1;
      pending, discarding, events, fed, earlier := [], false, [], [], [];
    }

    /** Feeding a chunk makes exactly the callbacks the longer text calls for. */
    method Feed(chunk: Bytes)
      requires Valid()
      modifies this
      ensures Valid() && fed == old(fed) + chunk && earlier == old(earlier)
      ensures events == old(earlier) + Released(limit, old(fed) + chunk)
    {
      hide Tracks, Split, Tail, Released, StripCr;
      var start := 0;
      assert fed + chunk[..0] == fed;
      while start < |chunk|
        invariant 0 <= start <= |chunk|
        invariant Valid() && fed == old(fed) + chunk[..start] && earlier == old(earlier)
      {
        var newline := Find(chunk, start);
        var end := if newline < 0 then |chunk| else newline;
        var segment := chunk[start..end];
        Cut(old(fed), chunk, start, end);
        TracksSegment(limit, earlier, fed, pending, discarding, events, segment);
        if !discarding {
          if |pending| + end - start > limit {
            pending, discarding := [], true;
            events := events + [Overflow];
          } else {
            pending := pending + segment;
          }
        }
        fed := fed + segment;
        if newline < 0 {
          assert chunk[..end] == chunk;
          CallbacksDue(limit, earlier, fed, pending, discarding, events);
          return;
        }
        TracksBreak(limit, earlier, fed, pending, discarding, events);
        if !discarding {
          events := events + [Line(StripCr(pending))];
        }
        pending, discarding := [], false;
        fed := fed + [LF];
        start := newline + 1;
      }
      assert chunk[..start] == chunk;
      CallbacksDue(limit, earlier, fed, pending, discarding, events);
    }

    /** `pending.clear()`: an unfinished line that was held back is withdrawn, not released. */
    method Clear()
      requires Valid()
      modifies this
      ensures Valid() && pending == [] && events == old(events) && earlier == old(earlier)
      ensures fed == Withdrawn(limit, old(fed))
    {
      pending := [];
      WithdrawnReleases(limit, fed);
      fed := Withdrawn(limit, fed);
    }

    /** `finish`: the tail is released once, and the framer starts afresh. */
    method Finish()
      requires Valid()
      modifies this
      ensures Valid() && fed == [] && earlier == events && pending == [] && !discarding
      ensures events == old(earlier) + Framed(limit, old(fed))
      ensures old(pending) == [] ==> events == old(events)
    {
      hide Split, Frames;
      NothingReleased(limit);
      if pending != [] && !discarding {
        events := events + [Line(pending)];
      }
      pending, discarding := [], false;
      fed, earlier := [], events;
    }
  }

  /** `chunk.find(b"\n", start)`. */
  method Find(chunk: Bytes, start: nat) returns (at: int)
    requires start <= |chunk|
    ensures at < 0 ==> LF !in chunk[start..]
    ensures at >= 0 ==> start <= at < |chunk| && chunk[at] == LF && LF !in chunk[start..at]
  {
    at := start;
    while at < |chunk| && chunk[at] != LF
      invariant start <= at <= |chunk|
      invariant LF !in chunk[start..at]
    {
      at := at + 1;
    }
    if at == |chunk| {
      at := -1;
    }
  }

  // ------------------------------------------------------------------ how a text's frames grow

  lemma {:induction false} JoinLonger(parts: seq<Bytes>, segment: Bytes)
    requires |parts| >= 1
    ensures Join(parts[..|parts| - 1] + [parts[|parts| - 1] + segment], LF) == Join(parts, LF) + segment
  {
    var longer := parts[..|parts| - 1] + [parts[|parts| - 1] + segment];
    if |parts| > 1 {
      JoinLonger(parts[1..], segment);
      assert longer[1..] == parts[1..][..|parts| - 2] + [parts[1..][|parts| - 2] + segment];
    }
  }

  lemma {:induction false} JoinBreak(parts: seq<Bytes>)
    requires |parts| >= 1
    ensures Join(parts + [[]], LF) == Join(parts, LF) + [LF]
  {
    var longer := parts + [[]];
    if |parts| == 1 {
      assert longer[1..] == [[]];
    } else {
      JoinBreak(parts[1..]);
      assert longer[1..] == parts[1..] + [[]];
    }
  }

  /** Appending a piece without a line break only lengthens the last part. */
  lemma SplitSegment(text: Bytes, segment: Bytes)
    requires LF !in segment
    ensures var parts := Split(text, LF);
            Split(text + segment, LF) == parts[..|parts| - 1] + [parts[|parts| - 1] + segment]
  {
    var parts := Split(text, LF);
    JoinSplit(text, LF);
    JoinLonger(parts, segment);
    SplitJoin(parts[..|parts| - 1] + [parts[|parts| - 1] + segment], LF);
  }

  /** Appending a line break ends the last part. */
  lemma SplitBreak(text: Bytes)
    ensures Split(text + [LF], LF) == Split(text, LF) + [[]]
  {
    var parts := Split(text, LF);
    JoinSplit(text, LF);
    JoinBreak(parts);
    SplitJoin(parts + [[]], LF);
  }

  lemma TailSegment(limit: nat, text: Bytes, segment: Bytes)
    requires LF !in segment
    ensures Tail(text + segment) == Tail(text) + segment
    ensures Released(limit, text + segment) ==
            Released(limit, text) +
            if |Tail(text)| <= limit < |Tail(text)| + |segment| then [Overflow] else []
  {
    SplitSegment(text, segment);
    var parts := Split(text, LF);
    var more := Split(text + segment, LF);
    assert more[..|more| - 1] == parts[..|parts| - 1];
  }

  lemma BreakLine(limit: nat, text: Bytes)
    ensures Tail(text + [LF]) == []
    ensures Released(limit, text + [LF]) ==
            Released(limit, text) + if |Tail(text)| <= limit then [Line(StripCr(Tail(text)))] else []
  {
    SplitBreak(text);
    var parts := Split(text, LF);
    var more := Split(text + [LF], LF);
    assert more[..|more| - 1] == parts;
    assert Frames(limit, parts) == Frames(limit, parts[..|parts| - 1]) + [Terminated(limit, Tail(text))];
  }

  lemma {:induction false} JoinEndsWithLast(parts: seq<Bytes>)
    requires |parts| >= 1
    ensures |parts[|parts| - 1]| <= |Join(parts, LF)|
    ensures var j, last := Join(parts, LF), parts[|parts| - 1];
            j[|j| - |last|..] == last && j[..|j| - |last|] == Join(parts[..|parts| - 1] + [[]], LF)
  {
    var last := parts[|parts| - 1];
    if |parts| == 1 {
      assert parts[..0] + [[]] == [[]];
    } else {
      JoinEndsWithLast(parts[1..]);
      var j, k := Join(parts, LF), Join(parts[1..], LF);
      assert j == (parts[0] + [LF]) + k;
      var cut := parts[..|parts| - 1] + [[]];
      assert cut[1..] == parts[1..][..|parts| - 2] + [[]];
      assert j[..|j| - |last|] == (parts[0] + [LF]) + k[..|k| - |last|];
    }
  }

  lemma TailIsLast(text: Bytes)
    ensures |Tail(text)| <= |text| && text[|text| - |Tail(text)|..] == Tail(text)
  {
    JoinSplit(text, LF);
    JoinEndsWithLast(Split(text, LF));
  }

  /** Taking back an unfinished line that fits changes no callback. */
  lemma WithdrawnReleases(limit: nat, text: Bytes)
    ensures var cut := Withdrawn(limit, text);
            && Released(limit, cut) == Released(limit, text)
            && Tail(cut) == if |Tail(text)| > limit then Tail(text) else []
  {
    hide StripCr, Split, Join, Frames;
    var parts := Split(text, LF);
    JoinSplit(text, LF);
    JoinEndsWithLast(parts);
    var kept := parts[..|parts| - 1] + [[]];
    SplitJoin(kept, LF);
    assert kept[..|kept| - 1] == parts[..|parts| - 1];
  }

  // ------------------------------------------------------------------ chunking does not matter

  function Concat(chunks: seq<Bytes>): Bytes {
    if chunks == [] then [] else Concat(chunks[..|chunks| - 1]) + chunks[|chunks| - 1]
  }

  /** However a text is cut into chunks, a framer makes the specification's callbacks for the whole. */
  method FrameChunks(limit: int, chunks: seq<Bytes>) returns (events: seq<Event>)
    ensures events == Framed(if limit > 1 then limit else 1, Concat(chunks))
  {
    var framer := new Framer(limit);
    for i := 0 to |chunks|
      invariant framer.Valid() && fresh(framer) && framer.earlier == []
      invariant framer.limit == (if limit > 1 then limit else 1)
      invariant framer.fed == Concat(chunks[..i])
    {
      assert chunks[..i + 1][..i] == chunks[..i];
      framer.Feed(chunks[i]);
    }
    assert chunks[..|chunks|] == chunks;
    framer.Finish();
    return framer.events;
  }

  // ------------------------------------------------------------------ line by line

  /** What one line is shown as: without one final CR, or only as too long. */
  function Shown(limit: nat, line: Bytes): Event {
    if |line| > limit then Overflow
    else if line != [] && line[|line| - 1] == 13 then Line(line[..|line| - 1])
    else Line(line)
  }

  /** A stream's callbacks: its first line's, then those of the rest. */
  lemma FirstLine(limit: nat, line: Bytes, rest: Bytes)
    requires 10 !in line
    ensures Framed(limit, line + [10] + rest) == [Shown(limit, line)] + Framed(limit, rest)
  {
    hide Frames;
    SplitHead(line, LF, rest);
    var parts, all := Split(rest, LF), Split(line + [LF] + rest, LF);
    assert all == [line] + parts;
    assert all[..|all| - 1] == [line] + parts[..|parts| - 1];
    FramesBoth(limit, [line], parts[..|parts| - 1]);
    assert Frames(limit, [line]) == [Shown(limit, line)] by { OneFrame(limit, line); }
  }

  lemma OneFrame(limit: nat, line: Bytes)
    ensures Frames(limit, [line]) == [Shown(limit, line)]
  {
  }

  lemma FramesBoth(limit: nat, a: seq<Bytes>, b: seq<Bytes>)
    ensures Frames(limit, a + b) == Frames(limit, a) + Frames(limit, b)
  {
  }

  /** And a last line that is not ended is shown as it stands, if there is any of it. */
  lemma LastLine(limit: nat, tail: Bytes)
    requires 10 !in tail
    ensures Framed(limit, tail) == if tail == [] then [] else if |tail| <= limit then [Line(tail)] else [Overflow]
  {
    SplitSingle(tail, LF);
  }
}
