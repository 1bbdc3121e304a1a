/** Merging only tightens, does not depend on order, and keeps what every level accepts in a chain. */
module PolicyProofs {
  import opened Prelude
  import opened Policy

  // ------------------------------------------------------------------ what `allows` means

  /** `Allows` is exactly "accepts whatever the other accepts", wherever and whatever is signed. */
  lemma AllowsExactly(a: Signer, b: Signer)
    ensures a.Allows(b) <==> forall home, c :: Accepts(b, home, c) ==> Accepts(a, home, c)
  {
    if !a.Allows(b) {
      var home, c := Witness(a, b);
    }
  }

  lemma Witness(a: Signer, b: Signer) returns (home: Option<string>, c: Certificate)
    requires !a.Allows(b)
    ensures Accepts(b, home, c) && !Accepts(a, home, c)
  {
    var ref := if b.ref.Some? then b.ref.value else if a.ref.Some? then a.ref.value + "!" else "";
    assert a.ref.Some? ==> a.ref.value + "!" != a.ref.value;
    var repo := if b.repo.Some? then b.repo.value else if a.repo.Some? then a.repo.value + "!" else "";
    assert a.repo.Some? ==> a.repo.value + "!" != a.repo.value;
    home := if b.repo.Some? then None else Some(repo);
    c := Certificate(b.workflow, ref, repo, if b.sha.Some? then {b.sha.value} else {});
  }

  lemma AllowsChains(a: Signer, b: Signer, c: Signer)
    requires a.Allows(b) && b.Allows(c)
    ensures a.Allows(c)
  {
  }

  // ------------------------------------------------------------------ tightening

  /** Whatever the merged signers accept, every level that lists signers accepts. */
  lemma EveryLevelAccepts(docs: seq<Document>, p: FactoryPolicy, d: Document, home: Option<string>, c: Certificate)
    requires Merges(docs, p) && d in docs && d.signers.Some?
    requires p.signers.Some? && AnyAccepts(p.signers.value, home, c)
    ensures AnyAccepts((set s | s in d.signers.value), home, c)
  {
    hide Accepts, Signer.Allows;
    var s :| s in p.signers.value && Accepts(s, home, c);
    assert d.Admits(s);
    var rule :| rule in d.signers.value && rule.Allows(s);
    AllowsExactly(rule, s);
  }

  /** Entries of which any two are comparable under `Allows`. */
  ghost predicate Chain(entries: seq<Signer>) {
    forall i, j :: 0 <= i < |entries| && 0 <= j < |entries| ==>
      entries[i].Allows(entries[j]) || entries[j].Allows(entries[i])
  }

  lemma {:induction false} Tightest(entries: seq<Signer>) returns (k: nat)
    requires Chain(entries) && entries != []
    ensures k < |entries| && forall i :: 0 <= i < |entries| ==> entries[i].Allows(entries[k])
  {
    hide Signer.Allows;
    var n := |entries| - 1;
    assert entries[n].Allows(entries[n]);
    if n == 0 {
      return 0;
    }
    var most := entries[..n];
    forall i, j | 0 <= i < n && 0 <= j < n ensures most[i].Allows(most[j]) || most[j].Allows(most[i]) {
      assert most[i] == entries[i] && most[j] == entries[j];
    }
    k := Tightest(most);
    if entries[n].Allows(entries[k]) {
      forall i | 0 <= i < |entries| ensures entries[i].Allows(entries[k]) {
        assert i < n ==> most[i].Allows(most[k]);
      }
    } else {
      forall i | 0 <= i < |entries| ensures entries[i].Allows(entries[n]) {
        if i < n {
          assert most[i].Allows(most[k]);
          AllowsChains(entries[i], entries[k], entries[n]);
        }
      }
      k := n;
    }
  }

  predicate Covers(entries: seq<Signer>, level: seq<Signer>) {
    exists i :: 0 <= i < |entries| && entries[i] in level
  }

  /** One accepting entry from each level that lists signers. */
  ghost predicate Picks(docs: seq<Document>, picks: seq<Signer>, home: Option<string>, c: Certificate) {
    && (forall i :: 0 <= i < |picks| ==> AnyNames(docs, picks[i]) && Accepts(picks[i], home, c))
    && (forall d :: d in docs && d.signers.Some? ==> Covers(picks, d.signers.value))
  }

  /** One of these entries is allowed by all of them. */
  ghost predicate HasTightest(entries: seq<Signer>) {
    exists k :: 0 <= k < |entries| && forall i :: 0 <= i < |entries| ==> entries[i].Allows(entries[k])
  }

  /** The choices of accepting entries that keep a receipt accepted: those with a tightest member. */
  ghost predicate Agreed(docs: seq<Document>, picks: seq<Signer>, home: Option<string>, c: Certificate) {
    Picks(docs, picks, home, c) && HasTightest(picks)
  }

  lemma TightestIsMerged(docs: seq<Document>, p: FactoryPolicy, picks: seq<Signer>, home: Option<string>,
                         c: Certificate)
    requires SignersAre(docs, p.signers) && AnySigners(docs) && Agreed(docs, picks, home, c)
    ensures p.signers.Some? && AnyAccepts(p.signers.value, home, c)
  {
    hide Accepts, Signer.Allows;
    var k :| 0 <= k < |picks| && forall i :: 0 <= i < |picks| ==> picks[i].Allows(picks[k]);
    forall d | d in docs ensures d.Admits(picks[k]) {
      if d.signers.Some? {
        var i :| 0 <= i < |picks| && picks[i] in d.signers.value;
      }
    }
    assert AllAdmit(docs, picks[k]);
  }

  /** An entry that every level admits, with one entry of each level that allows it. */
  lemma {:induction false} Rules(docs: seq<Document>, s: Signer) returns (rules: seq<Signer>)
    requires AllAdmit(docs, s)
    ensures forall i :: 0 <= i < |rules| ==> rules[i].Allows(s) && AnyNames(docs, rules[i])
    ensures forall d :: d in docs && d.signers.Some? ==> Covers(rules, d.signers.value)
  {
    hide Signer.Allows;
    rules := [];
    for n := 0 to |docs|
      invariant forall i :: 0 <= i < |rules| ==> rules[i].Allows(s) && AnyNames(docs, rules[i])
      invariant forall m :: 0 <= m < n && docs[m].signers.Some? ==> Covers(rules, docs[m].signers.value)
    {
      var d := docs[n];
      assert d in docs && d.Admits(s);
      if d.signers.Some? {
        var rule :| rule in d.signers.value && rule.Allows(s);
        forall m | 0 <= m < n && docs[m].signers.Some? ensures Covers(rules + [rule], docs[m].signers.value) {
          CoversMore(rules, rule, docs[m].signers.value);
        }
        assert (rules + [rule])[|rules|] in d.signers.value;
        rules := rules + [rule];
        assert AnyNames(docs, rule);
      }
    }
    forall d | d in docs && d.signers.Some? ensures Covers(rules, d.signers.value) {
      var m :| 0 <= m < |docs| && docs[m] == d;
    }
  }

  /** The merge accepts a receipt exactly when some choice of accepting entries, one a level, has a tightest one. */
  lemma AcceptedExactly(docs: seq<Document>, p: FactoryPolicy, home: Option<string>, c: Certificate)
    requires Merges(docs, p) && AnySigners(docs)
    ensures p.signers.Some?
    ensures AnyAccepts(p.signers.value, home, c) <==> exists picks :: Agreed(docs, picks, home, c)
  {
    hide Accepts, Signer.Allows, AllowIs, UnpinnedIs, RevokedIs, Effective, Agreed;
    if picks :| Agreed(docs, picks, home, c) {
      TightestIsMerged(docs, p, picks, home, c);
    }
    if AnyAccepts(p.signers.value, home, c) {
      var s :| s in p.signers.value && Accepts(s, home, c);
      var picks := MergedHasPicks(docs, s, home, c);
    }
  }

  lemma MergedHasPicks(docs: seq<Document>, s: Signer, home: Option<string>, c: Certificate)
    returns (picks: seq<Signer>)
    requires AnyNames(docs, s) && AllAdmit(docs, s) && Accepts(s, home, c)
    ensures Agreed(docs, picks, home, c)
  {
    hide Accepts, Signer.Allows, Document.Admits, Covers, AnyNames;
    var rules := Rules(docs, s);
    picks := rules + [s];
    Itself(s);
    forall i | 0 <= i < |picks| ensures picks[i].Allows(s) && AnyNames(docs, picks[i]) && Accepts(picks[i], home, c) {
      assert i < |rules| ==> picks[i] == rules[i];
      AllowsExactly(picks[i], s);
    }
    forall d | d in docs && d.signers.Some? ensures Covers(picks, d.signers.value) {
      CoversMore(rules, s, d.signers.value);
    }
    assert picks[|rules|] == s;
  }

  lemma CoversMore(rules: seq<Signer>, s: Signer, level: seq<Signer>)
    requires Covers(rules, level)
    ensures Covers(rules + [s], level)
  {
    var i :| 0 <= i < |rules| && rules[i] in level;
    assert (rules + [s])[i] == rules[i];
  }

  /** In particular where every level accepts it, by entries that form a chain. */
  lemma ChainStaysAccepted(docs: seq<Document>, p: FactoryPolicy, picks: seq<Signer>, home: Option<string>,
                           c: Certificate)
    requires Merges(docs, p) && AnySigners(docs) && Picks(docs, picks, home, c) && Chain(picks)
    ensures p.signers.Some? && AnyAccepts(p.signers.value, home, c)
  {
    hide Accepts, Signer.Allows, AllowIs, UnpinnedIs, RevokedIs, Effective, Chain;
    var level :| level in docs && level.signers.Some?;
    assert picks != [];
    var k := Tightest(picks);
    TightestIsMerged(docs, p, picks, home, c);
  }

  function OneLevel(s: Signer): Document {
    Document(true, None, None, None, [], Some([s]), [], false)
  }

  /** Without a chain it may be lost: a ref pin and a commit pin of one workflow merge to nothing. */
  lemma PinsOfTwoKindsMeetInNothing(p: FactoryPolicy)
    requires Merges([OneLevel(Signer("w", Some("r"), None, None)), OneLevel(Signer("w", None, None, Some("s")))], p)
    ensures var c := Certificate("w", "r", "home", {"s"});
      && Accepts(Signer("w", Some("r"), None, None), Some("home"), c)
      && Accepts(Signer("w", None, None, Some("s")), Some("home"), c)
      && p.signers == Some({})
  {
    var a, b := Signer("w", Some("r"), None, None), Signer("w", None, None, Some("s"));
    var docs := [OneLevel(a), OneLevel(b)];
    assert docs[0] in docs && docs[1] in docs;
    assert docs[0].signers == Some([a]) && docs[1].signers == Some([b]);
    assert !OneLevel(b).Admits(a) && !OneLevel(a).Admits(b);
    forall s ensures s !in p.signers.value {
      if AnyNames(docs, s) {
        assert s in [a] || s in [b];
        assert !AllAdmit(docs, s);
      }
    }
    assert p.signers.value == {};
  }

  // ------------------------------------------------------------------ verdicts, said of the documents

  /** A definition passes exactly when no level has an allow-list or each that has one lists it. */
  lemma FactoryExactly(docs: seq<Document>, p: FactoryPolicy, digest: string)
    requires Merges(docs, p)
    ensures EvaluateFactory(p, digest) == Pass <==> !AnyAllow(docs) || AllList(docs, digest)
    ensures EvaluateFactory(p, digest) == Fail <==>
      AnyAllow(docs) && !AllList(docs, digest) && !SwitchedOff(docs) && !Lenient(docs)
  {
  }

  /** A receipt's capabilities are revoked exactly when some level revokes one of them, by both fields. */
  lemma RevocationExactly(docs: seq<Document>, p: FactoryPolicy, bindings: seq<Capability>)
    requires Merges(docs, p)
    ensures IsRevoked(p, bindings) <==> exists b :: b in bindings && AnyRevokes(docs, Revoked(b.purl, b.body))
    ensures Violation(p) == Fail <==> !SwitchedOff(docs) && !Lenient(docs)
    ensures Violation(p) != Pass
  {
    hide AllowIs, UnpinnedIs, SignersAre, AnyRevokes;
  }

  /** An unsigned receipt is judged exactly where some level requires signatures. */
  lemma UnsignedExactly(docs: seq<Document>, p: FactoryPolicy)
    requires Merges(docs, p)
    ensures EvaluateUnsigned(p).Some? <==> AnyRequire(docs)
    ensures EvaluateUnsigned(p) == Some(Fail) <==> AnyRequire(docs) && !SwitchedOff(docs) && !Lenient(docs)
    ensures EvaluateUnsigned(p) != Some(Pass)
  {
  }

  /** An entry of some level that every level which lists signers admits. */
  predicate Agreeable(docs: seq<Document>, s: Signer) { AnyNames(docs, s) && AllAdmit(docs, s) }

  /**
   * An attested receipt passes exactly under some agreeable entry that accepts it; it fails exactly
   * where the policy blocks and none does, though a signature is required or found under one.
   */
  lemma IdentityExactly(docs: seq<Document>, p: FactoryPolicy, home: Option<string>, c: Certificate)
    requires Merges(docs, p)
    ensures JudgeIdentity(p, home, c) == Pass <==> exists s :: Agreeable(docs, s) && Accepts(s, home, c)
    ensures JudgeIdentity(p, home, c) == Fail <==>
      && !SwitchedOff(docs) && !Lenient(docs)
      && (forall s :: Agreeable(docs, s) ==> !Accepts(s, home, c))
      && (AnyRequire(docs) || exists s :: Agreeable(docs, s) && Finds(s, home, c))
  {
    hide AllowIs, UnpinnedIs, RevokedIs, Accepts, Finds, AllAdmit;
    assert forall s :: Agreeable(docs, s) ==> AnySigners(docs);
    if p.signers.Some? {
      assert forall s :: s in p.signers.value <==> Agreeable(docs, s);
    }
  }

  // ------------------------------------------------------------------ names

  /** The name a level gives a digest: that of the digest's last entry, if it has one. */
  predicate NamedBy(listed: seq<(Option<string>, string)>, digest: string, name: Option<string>) {
    exists i :: 0 <= i < |listed| && listed[i] == (name, digest)
      && forall j :: i < j < |listed| ==> listed[j].1 != digest
  }

  lemma {:induction false} EntriesName(listed: seq<(Option<string>, string)>, digest: string)
    ensures digest in EntriesOf(listed) ==> NamedBy(listed, digest, EntriesOf(listed)[digest])
  {
    hide EntriesOf;
    EntriesNext(listed);
    if listed != [] {
      var init, last := listed[..|listed| - 1], |listed| - 1;
      EntriesName(init, digest);
      assert forall i :: 0 <= i < last ==> init[i] == listed[i];
      if digest != listed[last].1 && digest in EntriesOf(init) {
        var i :| 0 <= i < |init| && init[i] == (EntriesOf(init)[digest], digest)
          && forall j :: i < j < |init| ==> init[j].1 != digest;
        assert listed[i] == (EntriesOf(listed)[digest], digest);
      } else if digest == listed[last].1 {
        assert listed[last] == (EntriesOf(listed)[digest], digest);
      }
    }
  }

  lemma EntriesNext(listed: seq<(Option<string>, string)>)
    ensures listed == [] ==> EntriesOf(listed) == map[]
    ensures listed != [] ==>
      var init, last := listed[..|listed| - 1], listed[|listed| - 1];
      EntriesOf(listed) == EntriesOf(init)[last.1 := last.0]
  {
  }

  /** What each level calls a digest, level by level. */
  function NamesOf(docs: seq<Document>, digest: string): seq<Option<string>> {
    seq(|docs|, i requires 0 <= i < |docs| => NameIn(docs[i], digest))
  }

  function NameIn(d: Document, digest: string): Option<string> {
    if d.allow.Some? && digest in EntriesOf(d.allow.value) then EntriesOf(d.allow.value)[digest] else None
  }

  /** An allowed digest is shown under the first name a level gives it. */
  lemma {:induction false} NamesExactly(docs: seq<Document>, digest: string)
    requires AllowOf(docs).Some? && digest in AllowOf(docs).value
    ensures AllowOf(docs).value[digest] == FirstOf(NamesOf(docs, digest))
  {
    hide FirstOf, EntriesOf;
    var init, d := docs[..|docs| - 1], docs[|docs| - 1];
    assert NamesOf(docs, digest) == NamesOf(init, digest) + [NameIn(d, digest)];
    FirstOfBoth(NamesOf(init, digest), [NameIn(d, digest)]);
    FirstOfOne(NameIn(d, digest));
    if AllowOf(init).Some? {
      NamesExactly(init, digest);
    } else {
      NoNames(init, digest);
    }
  }

  lemma {:induction false} NoNames(docs: seq<Document>, digest: string)
    requires AllowOf(docs).None?
    ensures FirstOf(NamesOf(docs, digest)).None?
  {
    hide FirstOf;
    ListsHold(docs);
    forall i | 0 <= i < |docs| ensures NamesOf(docs, digest)[i].None? {
      assert docs[i] in docs;
    }
    NoneFirst(NamesOf(docs, digest));
  }

  // ------------------------------------------------------------------ order

  ghost predicate SameDocuments(a: seq<Document>, b: seq<Document>) {
    forall d :: d in a <==> d in b
  }

  /** Equal but for the order of lists and the names that digests are shown under. */
  ghost predicate SamePolicy(p: FactoryPolicy, q: FactoryPolicy) {
    && p.enforcement == q.enforcement && p.requireSigned == q.requireSigned && p.present == q.present
    && p.allow.Some? == q.allow.Some? && (p.allow.Some? ==> p.allow.value.Keys == q.allow.value.Keys)
    && p.signers == q.signers
    && (forall r :: r in p.revoked <==> r in q.revoked)
    && (forall u :: u in p.unpinned <==> u in q.unpinned)
  }

  /** The result is that of the set of documents: neither order nor repetition matters. */
  lemma OrderDoesNotMatter(a: seq<Document>, b: seq<Document>, p: FactoryPolicy, q: FactoryPolicy)
    requires SameDocuments(a, b) && Merges(a, p) && Merges(b, q)
    ensures SamePolicy(p, q)
  {
    hide Document.Admits, Document.Lists;
    SameRules(a, b, p, q);
    forall r ensures AnyRevokes(a, r) <==> AnyRevokes(b, r) {
    }
    forall u ensures AnyUnpinned(a, u) <==> AnyUnpinned(b, u) {
    }
  }

  lemma SameRules(a: seq<Document>, b: seq<Document>, p: FactoryPolicy, q: FactoryPolicy)
    requires SameDocuments(a, b) && Merges(a, p) && Merges(b, q)
    ensures p.allow.Some? == q.allow.Some? && (p.allow.Some? ==> p.allow.value.Keys == q.allow.value.Keys)
    ensures p.signers == q.signers
  {
    hide Document.Admits, Document.Lists, RevokedIs, UnpinnedIs;
    if p.allow.Some? {
      forall digest ensures digest in p.allow.value <==> digest in q.allow.value {
        assert AllList(a, digest) <==> AllList(b, digest);
      }
    }
    if p.signers.Some? {
      forall s ensures s in p.signers.value <==> s in q.signers.value {
        assert AllAdmit(a, s) <==> AllAdmit(b, s);
        assert AnyNames(a, s) <==> AnyNames(b, s);
      }
      assert p.signers.value == q.signers.value;
    }
  }

  // ------------------------------------------------------------------ adding a document

  ghost predicate AllWellFormed(docs: seq<Document>) {
    forall d :: d in docs ==> d.WellFormed()
  }

  /** `q` is `p` with one more level. */
  ghost predicate Extends(docs: seq<Document>, d: Document, p: FactoryPolicy, q: FactoryPolicy) {
    AllWellFormed(docs + [d]) && Merges(docs, p) && Merges(docs + [d], q)
  }

  /** The added level and every earlier one that sets the top-level switch say "off". */
  predicate SwitchesOff(docs: seq<Document>, d: Document) {
    d.top == Some(TopOff) && forall e :: e in docs && e.top.Some? ==> e.top == Some(TopOff)
  }

  /**
   * What an added level leaves of blocking: it is switched off, or turned into a warning by the first
   * level with a factories section, or stays.
   */
  lemma BlockStays(docs: seq<Document>, d: Document, p: FactoryPolicy, q: FactoryPolicy)
    requires Extends(docs, d, p, q) && p.enforcement == Block
    ensures q.enforcement == Off <==> SwitchesOff(docs, d)
    ensures q.enforcement == Warn <==>
      !SwitchesOff(docs, d) && !p.present && d.present && d.enforcement == Some(LevelWarn)
  {
    assert d in docs + [d] && forall e :: e in docs + [d] <==> e in docs || e == d;
  }

  /** A definition the allow-list fails stays failed exactly where the new level does not switch everything off. */
  lemma FactoryStaysFailed(docs: seq<Document>, d: Document, p: FactoryPolicy, q: FactoryPolicy, digest: string)
    requires Extends(docs, d, p, q) && EvaluateFactory(p, digest) == Fail
    ensures EvaluateFactory(q, digest) == Fail <==> !SwitchesOff(docs, d)
  {
    hide Document.Lists, UnpinnedIs, RevokedIs, SignersAre;
    assert d in docs + [d] && forall e :: e in docs + [d] <==> e in docs || e == d;
    var e :| e in docs && e.allow.Some?;
    assert AnyPresent(docs) by { assert e in docs + [d] && e.WellFormed() && e.present; }
    BlockStays(docs, d, p, q);
    assert !AllList(docs, digest);
    assert !AllList(docs + [d], digest);
  }

  lemma RevocationStaysFailed(docs: seq<Document>, d: Document, p: FactoryPolicy, q: FactoryPolicy,
                              bindings: seq<Capability>)
    requires Extends(docs, d, p, q) && IsRevoked(p, bindings) && Violation(p) == Fail
    ensures IsRevoked(q, bindings)
    ensures Violation(q) == Fail <==> !SwitchesOff(docs, d)
  {
    hide Document.Lists, UnpinnedIs, AllowIs, SignersAre;
    assert d in docs + [d] && forall e :: e in docs + [d] <==> e in docs || e == d;
    var b :| b in bindings && Revoked(b.purl, b.body) in p.revoked;
    assert AnyRevokes(docs, Revoked(b.purl, b.body));
    var e :| e in docs && Revoked(b.purl, b.body) in e.revoked;
    assert AnyPresent(docs) by { assert e in docs + [d] && e.WellFormed() && e.present; }
    BlockStays(docs, d, p, q);
    assert AnyRevokes(docs + [d], Revoked(b.purl, b.body));
  }

  lemma RequireStays(docs: seq<Document>, d: Document, p: FactoryPolicy, q: FactoryPolicy)
    requires Extends(docs, d, p, q) && p.requireSigned
    ensures q.requireSigned && p.present
  {
    hide AllowIs, UnpinnedIs, RevokedIs, SignersAre;
    var e :| e in docs && e.requireSigned;
    assert e in docs + [d] && e.WellFormed() && e.present;
  }

  lemma UnsignedStaysFailed(docs: seq<Document>, d: Document, p: FactoryPolicy, q: FactoryPolicy)
    requires Extends(docs, d, p, q) && EvaluateUnsigned(p) == Some(Fail)
    ensures EvaluateUnsigned(q) == Some(Fail) <==> !SwitchesOff(docs, d)
  {
    hide Merges;
    RequireStays(docs, d, p, q);
    BlockStays(docs, d, p, q);
  }

  /** An entry of the merged signers that an added level keeps. */
  predicate Stays(p: FactoryPolicy, d: Document, s: Signer) {
    p.signers.Some? && s in p.signers.value && d.Admits(s)
  }

  /** An entry that an added level brings: it lists it, and every earlier level admits it. */
  predicate Joins(docs: seq<Document>, d: Document, s: Signer) {
    d.signers.Some? && s in d.signers.value && AllAdmit(docs, s)
  }

  lemma Itself(s: Signer)
    ensures s.Allows(s)
  {
  }

  /** The merged signers after adding a level: what it keeps and what it brings. */
  lemma SignersAfter(docs: seq<Document>, d: Document, p: FactoryPolicy, q: FactoryPolicy)
    requires SignersAre(docs, p.signers) && SignersAre(docs + [d], q.signers)
    ensures q.signers.Some? <==> p.signers.Some? || d.signers.Some?
    ensures q.signers.Some? ==> forall s :: s in q.signers.value <==> Stays(p, d, s) || Joins(docs, d, s)
  {
    hide Signer.Allows, Document.Admits;
    assert d in docs + [d] && forall e :: e in docs + [d] <==> e in docs || e == d;
    if q.signers.Some? {
      forall s ensures s in q.signers.value <==> Stays(p, d, s) || Joins(docs, d, s) {
        assert AllAdmit(docs + [d], s) <==> AllAdmit(docs, s) && d.Admits(s);
        assert AnyNames(docs + [d], s) <==> AnyNames(docs, s) || (d.signers.Some? && s in d.signers.value);
        ListedIsAdmitted(d, s);
      }
    }
  }

  lemma ListedIsAdmitted(d: Document, s: Signer)
    ensures d.signers.Some? && s in d.signers.value ==> d.Admits(s)
  {
    Itself(s);
  }

  /**
   * A failed identity still fails after adding a level exactly where the level does not switch
   * everything off, brings no entry that accepts the receipt, and either a signature is required or
   * one is still found, under an entry that the level keeps or brings.
   */
  lemma IdentityStaysExactly(docs: seq<Document>, d: Document, p: FactoryPolicy, q: FactoryPolicy,
                             home: Option<string>, c: Certificate)
    requires Extends(docs, d, p, q) && JudgeIdentity(p, home, c) == Fail
    ensures JudgeIdentity(q, home, c) == Fail <==>
      && !SwitchesOff(docs, d)
      && (forall s :: Joins(docs, d, s) ==> !Accepts(s, home, c))
      && (p.requireSigned || d.requireSigned
          || exists s :: (Stays(p, d, s) || Joins(docs, d, s)) && Finds(s, home, c))
  {
    hide AllowIs, UnpinnedIs, RevokedIs, Effective, Document.Admits, Accepts, Finds, Document.WellFormed;
    assert d in docs + [d] && forall e :: e in docs + [d] <==> e in docs || e == d;
    RulesArePresent(docs, d, p, q);
    BlockStays(docs, d, p, q);
    SignersAfter(docs, d, p, q);
    assert q.requireSigned <==> p.requireSigned || d.requireSigned;
    JudgedFail(p, home, c);
    JudgedFail(q, home, c);
  }

  /** When an identity fails, whether or not there are signers to look under. */
  lemma JudgedFail(p: FactoryPolicy, home: Option<string>, c: Certificate)
    ensures JudgeIdentity(p, home, c) == Fail <==>
      && p.enforcement == Block
      && (p.signers.Some? ==> !AnyAccepts(p.signers.value, home, c))
      && (p.requireSigned || (p.signers.Some? && AnyFinds(p.signers.value, home, c)))
  {
  }

  lemma RulesArePresent(docs: seq<Document>, d: Document, p: FactoryPolicy, q: FactoryPolicy)
    requires Extends(docs, d, p, q) && (p.requireSigned || p.signers.Some?)
    ensures p.present
  {
    hide AllowIs, UnpinnedIs, RevokedIs, Effective;
    var e :| e in docs && (e.requireSigned || e.signers.Some?);
    assert e in docs + [d] && e.WellFormed() && e.present;
  }

  // ------------------------------------------------------------------ what an added level may accept

  lemma {:induction false} Longer(names: set<string>) returns (longest: string)
    ensures forall n :: n in names ==> |n| < |longest|
    decreases |names|
  {
    if names == {} {
      return "!";
    }
    var n :| n in names;
    var rest := Longer(names - {n});
    longest := rest + n + "!";
    forall m | m in names ensures |m| < |longest| {
      assert m == n || m in names - {n};
    }
  }

  /** A certificate that only entries allowing `s` accept. */
  lemma Telling(signers: set<Signer>, s: Signer) returns (home: Option<string>, c: Certificate)
    ensures Accepts(s, home, c) && forall t :: t in signers && Accepts(t, home, c) ==> t.Allows(s)
  {
    var refs := set t | t in signers && t.ref.Some? :: t.ref.value;
    var repos := set t | t in signers && t.repo.Some? :: t.repo.value;
    var ref := Longer(refs);
    var repo := Longer(repos);
    if s.ref.Some? { ref := s.ref.value; }
    home := if s.repo.Some? then None else Some(repo);
    if s.repo.Some? { repo := s.repo.value; }
    c := Certificate(s.workflow, ref, repo, if s.sha.Some? then {s.sha.value} else {});
    forall t | t in signers && Accepts(t, home, c) ensures t.Allows(s) {
      assert t.ref.Some? ==> t.ref.value in refs;
      assert t.repo.Some? ==> t.repo.value in repos;
    }
  }

  predicate Covered(signers: set<Signer>, s: Signer) {
    exists t :: t in signers && t.Allows(s)
  }

  /** One set of signers accepts no more than another exactly when each of its entries is allowed there. */
  lemma AcceptsNoMoreExactly(wide: set<Signer>, narrow: set<Signer>)
    ensures (forall home, c :: AnyAccepts(narrow, home, c) ==> AnyAccepts(wide, home, c))
      <==> forall s :: s in narrow ==> Covered(wide, s)
  {
    hide Accepts, Signer.Allows;
    if forall s :: s in narrow ==> Covered(wide, s) {
      forall home, c | AnyAccepts(narrow, home, c) ensures AnyAccepts(wide, home, c) {
        var s :| s in narrow && Accepts(s, home, c);
        var t :| t in wide && t.Allows(s);
        AllowsExactly(t, s);
      }
    } else {
      var s :| s in narrow && !Covered(wide, s);
      var home, c := Telling(wide, s);
      assert AnyAccepts(narrow, home, c) && !AnyAccepts(wide, home, c);
    }
  }

  /**
   * An added level widens what is accepted exactly when it lists an entry that every earlier level
   * admits and that no entry of their merged result allows.
   */
  lemma AddedLevelWidensExactly(docs: seq<Document>, d: Document, p: FactoryPolicy, q: FactoryPolicy)
    requires Merges(docs, p) && Merges(docs + [d], q) && p.signers.Some?
    ensures q.signers.Some?
    ensures (forall home, c :: AnyAccepts(q.signers.value, home, c) ==> AnyAccepts(p.signers.value, home, c))
      <==> (forall s :: Joins(docs, d, s) ==> Covered(p.signers.value, s))
  {
    hide AnyAccepts, Signer.Allows, Document.Admits, AllowIs, UnpinnedIs, RevokedIs, Effective;
    SignersAfter(docs, d, p, q);
    AcceptsNoMoreExactly(p.signers.value, q.signers.value);
    forall s | Stays(p, d, s) ensures Covered(p.signers.value, s) {
      Itself(s);
    }
  }

  const REF_PIN := Signer("w", Some("r"), None, None)
  const COMMIT_PIN := Signer("w", None, None, Some("s"))
  const BOTH_PINS := Signer("w", Some("r"), None, Some("s"))

  /** It can: a level listing both pins restores what a ref pin and a commit pin had merged away. */
  lemma BothPinsRestore(p: FactoryPolicy, q: FactoryPolicy)
    requires Merges([OneLevel(REF_PIN), OneLevel(COMMIT_PIN)], p)
    requires Merges([OneLevel(REF_PIN), OneLevel(COMMIT_PIN)] + [OneLevel(BOTH_PINS)], q)
    ensures var c := Certificate("w", "r", "home", {"s"});
      && !AnyAccepts(p.signers.value, Some("home"), c)
      && q.signers.Some? && AnyAccepts(q.signers.value, Some("home"), c)
  {
    PinsOfTwoKindsMeetInNothing(p);
    var a, b, both := REF_PIN, COMMIT_PIN, BOTH_PINS;
    var docs := [OneLevel(a), OneLevel(b)] + [OneLevel(both)];
    assert docs[2] in docs && both in OneLevel(both).signers.value;
    assert AnyNames(docs, both);
    assert a in [a] && b in [b] && both in [both];
    assert OneLevel(a).Admits(both) && OneLevel(b).Admits(both) && OneLevel(both).Admits(both);
    assert AllAdmit(docs, both);
    assert Accepts(both, Some("home"), Certificate("w", "r", "home", {"s"}));
  }

  const NO_SIGNERS := Document(true, None, None, None, [], Some([]), [], false)

  /** And a level with an empty list of signers turns a signature at the wrong commit into a warning. */
  lemma MismatchCanSoften(p: FactoryPolicy, q: FactoryPolicy)
    requires Merges([OneLevel(COMMIT_PIN)], p) && Merges([OneLevel(COMMIT_PIN)] + [NO_SIGNERS], q)
    ensures var c := Certificate("w", "r", "home", {"other"});
      JudgeIdentity(p, Some("home"), c) == Fail && JudgeIdentity(q, Some("home"), c) == Warned
  {
    var s, none := COMMIT_PIN, NO_SIGNERS;
    var one := [OneLevel(s)];
    var two := one + [none];
    var c := Certificate("w", "r", "home", {"other"});
    assert one[0] in one && two[0] in two && two[1] in two && s in [s];
    assert OneLevel(s).Admits(s) && AllAdmit(one, s) && AnyNames(one, s);
    assert s in p.signers.value && Finds(s, Some("home"), c);
    forall t ensures t in p.signers.value ==> t == s {
    }
    assert !AnyAccepts(p.signers.value, Some("home"), c);
    forall t ensures t !in q.signers.value {
      assert !none.Admits(t);
    }
    assert q.signers.value == {};
    assert !SwitchedOff(one) && !SwitchedOff(two) && !Lenient(one);
    assert !AnyRequire(one) && !AnyRequire(two);
  }
}
