/** Shared vocabulary: optional and failing results, bytes, and splitting text on a separator. */
module Prelude {

  datatype Option<+T> = None | Some(value: T)

  datatype Result<+T, +E> = Ok(value: T) | Err(error: E) {
    predicate IsFailure() { Err? }

    function PropagateFailure<U>(): Result<U, E>
      requires Err?
    {
      Err(error)
    }

    function Extract(): T
      requires Ok?
    {
      value
    }
  }

  /** The first of these that is there. */
  function FirstOf<T>(faults: seq<Option<T>>): (first: Option<T>)
    ensures first.None? <==> forall i :: 0 <= i < |faults| ==> faults[i].None?
    ensures first.Some? ==>
              exists i :: 0 <= i < |faults| && faults[i] == first && forall j :: 0 <= j < i ==> faults[j].None?
  {
    if faults == [] then None
    else if faults[0].Some? then faults[0]
    else
      var first := FirstOf(faults[1..]);
      assert first.Some? ==> forall i :: 0 <= i < |faults| - 1 ==> faults[1..][i] == faults[i + 1];
      first
  }

  lemma FirstIs<T>(faults: seq<Option<T>>, i: nat)
    requires i < |faults| && faults[i].Some? && forall j :: 0 <= j < i ==> faults[j].None?
    ensures FirstOf(faults) == faults[i]
  {
    assert FirstOf(faults).Some?;
    var k :| 0 <= k < |faults| && faults[k] == FirstOf(faults) && forall j :: 0 <= j < k ==> faults[j].None?;
    assert k == i;
  }

  lemma {:induction false} FirstOfBoth<T>(a: seq<Option<T>>, b: seq<Option<T>>)
    ensures FirstOf(a + b) == if FirstOf(a).Some? then FirstOf(a) else FirstOf(b)
  {
    if a == [] {
      assert a + b == b;
    } else {
      FirstOfBoth(a[1..], b);
      assert (a + b)[1..] == a[1..] + b;
    }
  }

  lemma FirstOfNone<T>()
    ensures FirstOf<T>([]) == None
  {
  }

  lemma FirstOfOne<T>(x: Option<T>)
    ensures FirstOf([x]) == x
  {
  }

  lemma NoneFirst<T>(faults: seq<Option<T>>)
    requires forall i :: 0 <= i < |faults| ==> faults[i].None?
    ensures FirstOf(faults).None?
  {
  }

  /** One byte, kept an integer so that byte strings and code-point strings share one order. */
  type Byte = b: int | 0 <= b < 256

  type Bytes = seq<Byte>

  /** A printable text as its characters' codes, which are its bytes. */
  function Chars(text: string): (codes: Bytes)
    requires forall k :: 0 <= k < |text| ==> ' ' <= text[k] <= '~'
    ensures |codes| == |text| && forall k :: 0 <= k < |text| ==> codes[k] == text[k] as int
  {
    seq(|text|, i requires 0 <= i < |text| => text[i] as int)
  }

  /** A number in decimal, as ASCII. */
  function Digits(n: nat): (ds: Bytes)
    ensures |ds| >= 1 && forall k :: 0 <= k < |ds| ==> 48 <= ds[k] <= 57
  {
    if n < 10 then [48 + n] else Digits(n / 10) + [48 + n % 10]
  }

  /** `text.split(sep)` for a one-element separator: never empty, and no part contains `sep`. */
  function Split<T(==)>(text: seq<T>, sep: T): (parts: seq<seq<T>>)
    ensures |parts| >= 1
    ensures forall k :: 0 <= k < |parts| ==> sep !in parts[k]
  {
    if text == [] then [[]]
    else if text[0] == sep then [[]] + Split(text[1..], sep)
    else
      var rest := Split(text[1..], sep);
      [[text[0]] + rest[0]] + rest[1..]
  }

  /** `sep.join(parts)`. */
  function Join<T>(parts: seq<seq<T>>, sep: T): seq<T> {
    if |parts| == 0 then []
    else if |parts| == 1 then parts[0]
    else parts[0] + [sep] + Join(parts[1..], sep)
  }

  /** Splitting one separated head off a text. */
  lemma {:induction false} SplitHead<T>(head: seq<T>, sep: T, tail: seq<T>)
    requires sep !in head
    ensures Split(head + [sep] + tail, sep) == [head] + Split(tail, sep)
  {
    var text := head + [sep] + tail;
    if head == [] {
      assert text[1..] == tail;
    } else {
      SplitHead(head[1..], sep, tail);
      assert text[1..] == head[1..] + [sep] + tail;
      assert text[0] == head[0];
      assert [head[0]] + head[1..] == head;
    }
  }

  lemma {:induction false} SplitSingle<T>(text: seq<T>, sep: T)
    requires sep !in text
    ensures Split(text, sep) == [text]
  {
    if text != [] {
      SplitSingle(text[1..], sep);
      assert [text[0]] + text[1..] == text;
    }
  }

  /** Splitting undoes joining when no part contains the separator. */
  lemma {:induction false} SplitJoin<T>(parts: seq<seq<T>>, sep: T)
    requires |parts| >= 1
    requires forall k :: 0 <= k < |parts| ==> sep !in parts[k]
    ensures Split(Join(parts, sep), sep) == parts
  {
    if |parts| == 1 {
      SplitSingle(parts[0], sep);
    } else {
      SplitJoin(parts[1..], sep);
      SplitHead(parts[0], sep, Join(parts[1..], sep));
      assert [parts[0]] + parts[1..] == parts;
    }
  }

  /** Joining undoes splitting, always. */
  lemma {:induction false} JoinSplit<T>(text: seq<T>, sep: T)
    ensures Join(Split(text, sep), sep) == text
  {
    if text == [] {
    } else {
      JoinSplit(text[1..], sep);
      var rest := Split(text[1..], sep);
      if text[0] == sep {
        assert Split(text, sep)[1..] == rest;
        assert Join(Split(text, sep), sep) == [] + [sep] + text[1..];
      } else {
        var parts := Split(text, sep);
        assert parts[1..] == rest[1..];
        if |rest| == 1 {
          assert Join(parts, sep) == [text[0]] + rest[0];
        } else {
          assert Join(parts, sep) == [text[0]] + rest[0] + [sep] + Join(rest[1..], sep);
          assert Join(rest, sep) == rest[0] + [sep] + Join(rest[1..], sep);
          assert Join(parts, sep) == [text[0]] + Join(rest, sep);
        }
      }
    }
  }

  /** Splitting at a known separator splits the two sides apart. */
  lemma {:induction false} SplitAt<T>(left: seq<T>, sep: T, right: seq<T>)
    ensures Split(left + [sep] + right, sep) == Split(left, sep) + Split(right, sep)
  {
    var a, b := Split(left, sep), Split(right, sep);
    JoinSplit(left, sep);
    JoinSplit(right, sep);
    JoinConcat(a, b, sep);
    SplitJoin(a + b, sep);
  }

  lemma {:induction false} JoinConcat<T>(a: seq<seq<T>>, b: seq<seq<T>>, sep: T)
    requires |a| >= 1 && |b| >= 1
    ensures Join(a + b, sep) == Join(a, sep) + [sep] + Join(b, sep)
  {
    assert (a + b)[1..] == a[1..] + b;
    if |a| > 1 {
      JoinConcat(a[1..], b, sep);
    }
  }

  ghost predicate Distinct<T(!new)>(s: seq<T>) {
    forall i, j :: 0 <= i < j < |s| ==> s[i] != s[j]
  }

  /** `len(set(s)) == len(s)` says that nothing in `s` is repeated. */
  lemma {:induction false} DistinctExactly<T(!new)>(s: seq<T>)
    ensures |set x | x in s| <= |s|
    ensures |set x | x in s| == |s| <==> Distinct(s)
  {
    var all := set x | x in s;
    if s == [] {
      assert all == {};
    } else {
      var most, last := s[..|s| - 1], s[|s| - 1];
      DistinctExactly(most);
      assert s == most + [last];
      assert all == (set x | x in most) + {last};
      assert forall i :: 0 <= i < |most| ==> most[i] == s[i];
      if last in most {
        var i :| 0 <= i < |most| && most[i] == last;
        assert s[i] == s[|most|];
      }
    }
  }

  /** Two places of a list have two places in any rearrangement. */
  lemma TwoPlaces<T>(b: seq<T>, a: seq<T>, i: nat, j: nat) returns (k: nat, l: nat)
    requires i < j < |b| && multiset(a) == multiset(b)
    ensures k < |a| && l < |a| && k != l && a[k] == b[i] && a[l] == b[j]
  {
    assert b[i] in multiset(a);
    k :| 0 <= k < |a| && a[k] == b[i];
    var restA, restB := Without(a, k), Without(b, i);
    WithoutCount(a, k);
    WithoutCount(b, i);
    assert restB[j - 1] == b[j];
    assert b[j] in multiset(restA);
    var m :| 0 <= m < |restA| && restA[m] == b[j];
    l := if m < k then m else m + 1;
  }

  function Without<T>(a: seq<T>, k: nat): seq<T>
    requires k < |a|
  {
    a[..k] + a[k + 1..]
  }

  lemma WithoutCount<T>(a: seq<T>, k: nat)
    requires k < |a|
    ensures multiset(Without(a, k)) == multiset(a) - multiset{a[k]}
  {
    assert a == a[..k] + ([a[k]] + a[k + 1..]);
  }
}
