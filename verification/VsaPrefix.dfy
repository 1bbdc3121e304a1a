/** The directory a verification summary places the delivered files under (`vsa_prefix`). */
module VsaPrefix {
  import opened Prelude

  datatype Subject<+D> = Subject(name: string, digest: D)

  predicate EndsWith(text: string, tail: string) {
    |tail| <= |text| && text[|text| - |tail|..] == tail
  }

  /** `name` is the file `local`, or ends in it below some directory. */
  predicate Under(name: string, local: string) {
    name == local || EndsWith(name, "/" + local)
  }

  /** `matches[0]`: the first delivered file with this digest that `name` can stand for. */
  function FirstMatch<D(==)>(name: string, digest: D, subjects: seq<Subject<D>>): (m: Option<string>)
    ensures m.Some? ==> Under(name, m.value) && |m.value| <= |name|
  {
    if subjects == [] then None
    else if subjects[0].digest == digest && Under(name, subjects[0].name) then Some(subjects[0].name)
    else FirstMatch(name, digest, subjects[1..])
  }

  predicate DistinctNames<D>(subjects: seq<Subject<D>>) {
    forall i, j :: 0 <= i < j < |subjects| ==> subjects[i].name != subjects[j].name
  }

  /** The names and digests of `vsa` are those of `subjects`, each below `prefix`. */
  predicate Placed<D(==)>(prefix: string, subjects: seq<Subject<D>>, vsa: map<string, D>) {
    && (forall i :: 0 <= i < |subjects| ==>
          prefix + subjects[i].name in vsa && vsa[prefix + subjects[i].name] == subjects[i].digest)
    && (forall name {:trigger Hosts(prefix, subjects, name)} :: name in vsa ==> Hosts(prefix, subjects, name))
  }

  /** `name` is some delivered file below `prefix`. */
  predicate Hosts<D>(prefix: string, subjects: seq<Subject<D>>, name: string) {
    exists i :: 0 <= i < |subjects| && name == prefix + subjects[i].name
  }

  /** No earlier file with the same digest can stand for a placed file's name. */
  predicate Unambiguous<D(==)>(prefix: string, subjects: seq<Subject<D>>) {
    forall i, j :: 0 <= j < i < |subjects| && subjects[j].digest == subjects[i].digest ==>
      !Under(prefix + subjects[i].name, subjects[j].name)
  }

  /** Each delivered file is the first one its placed name can stand for. */
  predicate FirstMatches<D(==)>(prefix: string, subjects: seq<Subject<D>>) {
    forall i :: 0 <= i < |subjects| ==>
      FirstMatch(prefix + subjects[i].name, subjects[i].digest, subjects) == Some(subjects[i].name)
  }

  /** A repository directory: the root, or a path that ends in a slash. */
  predicate Directory(prefix: string) { prefix == "" || EndsWith(prefix, "/") }

  /** The directory's own files are under it, whatever they are called. */
  lemma UnderPlaced(prefix: string, local: string)
    ensures Under(prefix + local, local) <==> Directory(prefix)
  {
    var name := prefix + local;
    assert name[|prefix|..] == local;
    if prefix != "" {
      var slash := |prefix| - 1;
      assert name[slash..] == [prefix[slash]] + local && prefix[slash..] == [prefix[slash]];
      assert ("/" + local)[0] == '/';
    }
  }

  lemma {:induction false} FirstMatchIs<D>(name: string, digest: D, subjects: seq<Subject<D>>, i: nat)
    requires i < |subjects| && subjects[i].digest == digest && DistinctNames(subjects)
    ensures FirstMatch(name, digest, subjects) == Some(subjects[i].name) <==>
      && Under(name, subjects[i].name)
      && forall j :: 0 <= j < i && subjects[j].digest == digest ==> !Under(name, subjects[j].name)
  {
    hide Under;
    if i > 0 {
      FirstMatchIs(name, digest, subjects[1..], i - 1);
      assert forall j :: 0 < j <= i ==> subjects[1..][j - 1] == subjects[j];
    }
  }

  /** Every placed file is its name's first match exactly below a directory, where none before it can stand for it. */
  lemma FirstMatchesExactly<D>(subjects: seq<Subject<D>>)
    requires DistinctNames(subjects) && subjects != []
    ensures forall p :: FirstMatches(p, subjects) <==> Directory(p) && Unambiguous(p, subjects)
  {
    hide FirstMatch, Under, Directory, DistinctNames;
    forall p ensures FirstMatches(p, subjects) <==> Directory(p) && Unambiguous(p, subjects) {
      forall i | 0 <= i < |subjects|
        ensures FirstMatch(p + subjects[i].name, subjects[i].digest, subjects) == Some(subjects[i].name) <==>
          && Directory(p)
          && forall j :: 0 <= j < i && subjects[j].digest == subjects[i].digest ==>
               !Under(p + subjects[i].name, subjects[j].name)
      {
        UnderPlaced(p, subjects[i].name);
        FirstMatchIs(p + subjects[i].name, subjects[i].digest, subjects, i);
      }
      assert FirstMatches(p, subjects) ==>
          FirstMatch(p + subjects[0].name, subjects[0].digest, subjects) == Some(subjects[0].name);
    }
  }

  function Before(name: string, local: string): string
    requires |local| <= |name|
  {
    name[..|name| - |local|]
  }

  /** The prefix one placed name proposes. */
  function Candidate<D(==)>(name: string, digest: D, subjects: seq<Subject<D>>): Option<string> {
    var first := FirstMatch(name, digest, subjects);
    if first.None? then None else Some(Before(name, first.value))
  }

  /** `vsa_prefix`, given the summary's subjects as a map. */
  method FindPrefix<D(==)>(vsa: map<string, D>, subjects: seq<Subject<D>>) returns (r: Option<string>)
    requires DistinctNames(subjects) && subjects != []
    ensures r.Some? ==> Placed(r.value, subjects, vsa) && Directory(r.value) && Unambiguous(r.value, subjects)
    ensures r.None? ==> forall p :: !(Placed(p, subjects, vsa) && Directory(p) && Unambiguous(p, subjects))
  {
    hide Placed, FirstMatches, Unambiguous, Directory, Candidate, DistinctNames;
    FirstMatchesExactly(subjects);
    AllPropose(subjects, vsa);
    if |vsa| != |subjects| {
      return None;
    }
    var prefixes: set<string> := {};
    var todo := vsa.Keys;
    while todo != {}
      invariant todo <= vsa.Keys
      invariant forall name :: name in vsa.Keys - todo ==>
        Candidate(name, vsa[name], subjects).Some? && Candidate(name, vsa[name], subjects).value in prefixes
      invariant forall p :: p in prefixes ==> Proposed(p, vsa.Keys - todo, subjects, vsa)
      decreases todo
    {
      var name :| name in todo;
      var candidate := Candidate(name, vsa[name], subjects);
      if candidate.None? {
        return None;
      }
      prefixes := prefixes + {candidate.value};
      todo := todo - {name};
    }
    assert vsa.Keys - todo == vsa.Keys;
    OneProposal(prefixes, subjects, vsa);
    if |prefixes| != 1 {
      return None;
    }
    var prefix :| prefix in prefixes;
    assert prefixes == {prefix} by { Singleton(prefixes, prefix); }
    if !Placed(prefix, subjects, vsa) {
      return None;
    }
    AgreedIsRight(prefix, subjects, vsa);
    return Some(prefix);
  }

  ghost predicate Proposed<D>(p: string, names: set<string>, subjects: seq<Subject<D>>, vsa: map<string, D>) {
    exists name :: name in names && name in vsa && Candidate(name, vsa[name], subjects) == Some(p)
  }

  /** Where there is an unambiguous placement, all names have proposed it alone. */
  lemma OneProposal<D>(prefixes: set<string>, subjects: seq<Subject<D>>, vsa: map<string, D>)
    requires DistinctNames(subjects) && subjects != [] && |vsa| == |subjects|
    requires forall name :: name in vsa.Keys ==>
      Candidate(name, vsa[name], subjects).Some? && Candidate(name, vsa[name], subjects).value in prefixes
    requires forall p :: p in prefixes ==> Proposed(p, vsa.Keys, subjects, vsa)
    ensures forall p :: Placed(p, subjects, vsa) && FirstMatches(p, subjects) ==> |prefixes| == 1
  {
    hide Placed, FirstMatches, Candidate, DistinctNames;
    AllPropose(subjects, vsa);
    forall p | Placed(p, subjects, vsa) && FirstMatches(p, subjects) ensures |prefixes| == 1 {
      var name :| name in vsa;
      assert Candidate(name, vsa[name], subjects).value in prefixes;
      assert prefixes == {p};
    }
  }

  lemma Singleton<T>(s: set<T>, x: T)
    requires |s| == 1 && x in s
    ensures s == {x}
  {
    assert |s - {x}| == 0;
  }

  /** Under an unambiguous placement every name of the summary proposes its prefix. */
  lemma AllPropose<D>(subjects: seq<Subject<D>>, vsa: map<string, D>)
    requires DistinctNames(subjects) && subjects != []
    ensures forall p :: Placed(p, subjects, vsa) && FirstMatches(p, subjects) ==>
              |vsa| == |subjects| && vsa.Keys != {} &&
              forall name :: name in vsa ==> Candidate(name, vsa[name], subjects) == Some(p)
  {
    forall p | Placed(p, subjects, vsa) && FirstMatches(p, subjects)
      ensures |vsa| == |subjects| && vsa.Keys != {}
          && forall name :: name in vsa ==> Candidate(name, vsa[name], subjects) == Some(p)
    {
      PlacedCount(p, subjects, vsa);
      forall name | name in vsa ensures Candidate(name, vsa[name], subjects) == Some(p) {
        assert Hosts(p, subjects, name);
        var i :| 0 <= i < |subjects| && name == p + subjects[i].name;
        assert Before(name, subjects[i].name) == p;
      }
      assert p + subjects[0].name in vsa;
    }
  }

  lemma PlacedCount<D>(p: string, subjects: seq<Subject<D>>, vsa: map<string, D>)
    requires Placed(p, subjects, vsa) && DistinctNames(subjects)
    ensures |vsa| == |subjects|
  {
    var names := seq(|subjects|, i requires 0 <= i < |subjects| => p + subjects[i].name);
    forall i, j | 0 <= i < j < |names| ensures names[i] != names[j] {
      assert names[i][|p|..] == subjects[i].name && names[j][|p|..] == subjects[j].name;
    }
    DistinctCount(names);
    assert vsa.Keys == set x | x in names by {
      forall x | x in names ensures x in vsa { var i :| 0 <= i < |names| && names[i] == x; }
      forall x | x in vsa ensures x in names {
        assert Hosts(p, subjects, x);
        var i :| 0 <= i < |subjects| && x == p + subjects[i].name;
        assert names[i] == x;
      }
    }
  }

  lemma {:induction false} DistinctCount<T>(s: seq<T>)
    requires forall i, j :: 0 <= i < j < |s| ==> s[i] != s[j]
    ensures |set x | x in s| == |s|
  {
    if s != [] {
      var init, last := s[..|s| - 1], s[|s| - 1];
      DistinctCount(init);
      assert (set x | x in s) == (set x | x in init) + {last};
    }
  }

  /** Under a prefix all names agree on, each file is the first match of its placed name. */
  lemma AgreedIsRight<D>(p: string, subjects: seq<Subject<D>>, vsa: map<string, D>)
    requires Placed(p, subjects, vsa)
    requires forall name :: name in vsa ==> Candidate(name, vsa[name], subjects) == Some(p)
    ensures FirstMatches(p, subjects)
  {
    hide FirstMatch;
    forall i | 0 <= i < |subjects|
      ensures FirstMatch(p + subjects[i].name, subjects[i].digest, subjects) == Some(subjects[i].name)
    {
      var name, local := p + subjects[i].name, subjects[i].name;
      assert Candidate(name, vsa[name], subjects) == Some(p);
      var m := FirstMatch(name, subjects[i].digest, subjects).value;
      assert |m| == |local| && name[|p|..] == local;
      if name != m {
        assert name[|p| - 1..] == "/" + m;
        assert name[|p| - 1..][1..] == m;
      }
    }
  }

  /** At most one prefix places the delivered files. */
  lemma PrefixIsUnique<D>(p: string, q: string, subjects: seq<Subject<D>>, vsa: map<string, D>)
    requires Placed(p, subjects, vsa) && Placed(q, subjects, vsa) && subjects != []
    ensures p == q
  {
    var i := Longest(subjects);
    ReachesLonger(p, q, subjects, vsa, i);
    ReachesLonger(q, p, subjects, vsa, i);
    var name := p + subjects[i].name;
    assert Hosts(q, subjects, name);
    var j :| 0 <= j < |subjects| && name == q + subjects[j].name;
    assert name[..|p|] == p && name[..|q|] == q;
  }

  lemma Longest<D>(subjects: seq<Subject<D>>) returns (i: nat)
    requires subjects != []
    ensures i < |subjects| && forall j :: 0 <= j < |subjects| ==> |subjects[j].name| <= |subjects[i].name|
  {
    i := 0;
    for k := 0 to |subjects|
      invariant i < |subjects| && forall j :: 0 <= j < k ==> |subjects[j].name| <= |subjects[i].name|
    {
      if |subjects[k].name| > |subjects[i].name| { i := k; }
    }
  }

  lemma ReachesLonger<D>(p: string, q: string, subjects: seq<Subject<D>>, vsa: map<string, D>, i: nat)
    requires Placed(p, subjects, vsa) && Placed(q, subjects, vsa) && i < |subjects|
    requires forall j :: 0 <= j < |subjects| ==> |subjects[j].name| <= |subjects[i].name|
    ensures |p| <= |q|
  {
    var name := p + subjects[i].name;
    assert Hosts(q, subjects, name);
    var j :| 0 <= j < |subjects| && name == q + subjects[j].name;
  }

  /**
   * The first match is not always the right one: two copies of a file, one a path suffix of the
   * other, are placed below `p/` exactly, yet the summary is refused.
   */
  lemma CopiesAreRefused(d: int)
    ensures var subjects := [Subject("a", d), Subject("x/a", d)];
            DistinctNames(subjects) && Placed("p/", subjects, map["p/a" := d, "p/x/a" := d])
            && Directory("p/") && !Unambiguous("p/", subjects)
  {
    var subjects := [Subject("a", d), Subject("x/a", d)];
    assert "p/" + "a" == "p/a" && "p/" + "x/a" == "p/x/a";
    assert subjects[0].name == "a" && subjects[1].name == "x/a";
    assert "p/x/a"[3..] == "/" + "a";
    assert Under("p/x/a", "a");
    assert "p/"[1..] == "/";
  }
}
