/** Lexicographic order on integer strings (code points or bytes) and sorting a finite set by it. */
module Order {

  predicate Less(a: seq<int>, b: seq<int>) {
    if b == [] then false
    else if a == [] then true
    else a[0] < b[0] || (a[0] == b[0] && Less(a[1..], b[1..]))
  }

  lemma {:induction false} LessTotal(a: seq<int>, b: seq<int>)
    ensures a == b || Less(a, b) || Less(b, a)
  {
    if a != [] && b != [] && a[0] == b[0] {
      LessTotal(a[1..], b[1..]);
      if a[1..] == b[1..] {
        assert a == [a[0]] + a[1..] == b;
      }
    }
  }

  lemma {:induction false} LessTransitive(a: seq<int>, b: seq<int>, c: seq<int>)
    requires Less(a, b) && Less(b, c)
    ensures Less(a, c)
  {
    if a != [] && a[0] == b[0] && b[0] == c[0] {
      LessTransitive(a[1..], b[1..], c[1..]);
    }
  }

  lemma {:induction false} LessIrreflexive(a: seq<int>)
    ensures !Less(a, a)
  {
    if a != [] {
      LessIrreflexive(a[1..]);
    }
  }

  lemma {:induction false} PrefixIsLess(a: seq<int>, b: seq<int>)
    requires a < b
    ensures Less(a, b)
  {
    if a != [] {
      PrefixIsLess(a[1..], b[1..]);
    }
  }

  predicate IsLeast(k: seq<int>, s: set<seq<int>>) {
    k in s && forall x :: x in s && x != k ==> Less(k, x)
  }

  lemma {:induction false} LeastExists(s: set<seq<int>>) returns (k: seq<int>)
    requires s != {}
    ensures IsLeast(k, s)
    decreases |s|
  {
    var a :| a in s;
    if s == {a} {
      return a;
    }
    var rest := s - {a};
    assert rest != {};
    var b := LeastExists(rest);
    LessTotal(a, b);
    if Less(a, b) {
      forall x | x in s && x != a ensures Less(a, x) {
        if x != b { LessTransitive(a, b, x); }
      }
      return a;
    }
    return b;
  }

  lemma LeastWitness(s: set<seq<int>>)
    requires s != {}
    ensures exists k :: IsLeast(k, s)
  {
    var k := LeastExists(s);
  }

  lemma LeastUnique(k: seq<int>, l: seq<int>, s: set<seq<int>>)
    requires IsLeast(k, s) && IsLeast(l, s)
    ensures k == l
  {
    if k != l {
      LessTransitive(k, l, k);
      LessIrreflexive(k);
    }
  }

  function Least(s: set<seq<int>>): (k: seq<int>)
    requires s != {}
    ensures IsLeast(k, s)
  {
    LeastWitness(s);
    assert forall k, l | IsLeast(k, s) && IsLeast(l, s) :: k == l by {
      forall k, l | IsLeast(k, s) && IsLeast(l, s) ensures k == l { LeastUnique(k, l, s); }
    }
    var k :| k in s && IsLeast(k, s);
    k
  }

  /** `sorted(s)`: the members of `s`, each once, in increasing order. */
  function Sorted(s: set<seq<int>>): (r: seq<seq<int>>)
    ensures forall x :: x in r <==> x in s
    ensures forall i, j :: 0 <= i < j < |r| ==> Less(r[i], r[j])
    decreases |s|
  {
    if s == {} then [] else
      var k := Least(s);
      var rest := Sorted(s - {k});
      [k] + rest
  }

  ghost predicate Increasing(r: seq<seq<int>>) {
    forall i, j :: 0 <= i < j < |r| ==> Less(r[i], r[j])
  }

  /** A strictly increasing list is the sorted list of its own members. */
  lemma {:induction false} SortedUnique(r: seq<seq<int>>)
    requires Increasing(r)
    ensures Sorted(set x | x in r) == r
  {
    var s := set x | x in r;
    if r == [] {
      assert s == {};
    } else {
      var tail := r[1..];
      assert r == [r[0]] + tail;
      LessIrreflexive(r[0]);
      assert IsLeast(r[0], s) by {
        forall x | x in s && x != r[0] ensures Less(r[0], x) {
          var i :| 0 <= i < |r| && r[i] == x;
        }
      }
      var k := Least(s);
      LeastUnique(k, r[0], s);
      assert r[0] !in tail by {
        forall i | 0 <= i < |tail| ensures tail[i] != r[0] {
          assert Less(r[0], r[i + 1]);
        }
      }
      assert s - {k} == set x | x in tail;
      SortedUnique(tail);
    }
  }
}
