/** Merging the policies of one chain (`merge`) and judging a receipt by the result. */
module Policy {
  import opened Prelude

  /** A workflow allowed to sign, optionally pinned to a ref, a repository and a workflow commit. */
  datatype Signer = Signer(workflow: string, ref: Option<string>, repo: Option<string>, sha: Option<string>) {
    predicate Allows(other: Signer) {
      && workflow == other.workflow
      && repo == other.repo
      && (ref.None? || ref == other.ref)
      && (sha.None? || sha == other.sha)
    }
  }

  datatype Revoked = Revoked(purl: string, body: string)

  datatype Top = TopOff | TopWarn | TopBlock
  datatype Level = LevelWarn | LevelBlock
  datatype Enforcement = Off | Warn | Block

  /** One level of the chain, as parsed. */
  datatype Document = Document(
    present: bool,
    top: Option<Top>,
    enforcement: Option<Level>,
    allow: Option<seq<(Option<string>, string)>>,   // (name, definition digest)
    unpinned: seq<string>,
    signers: Option<seq<Signer>>,
    revoked: seq<Revoked>,
    requireSigned: bool)
  {
    /** The parser sets rules only together with the `factories` section itself. */
    predicate WellFormed() {
      !present ==> enforcement.None? && allow.None? && signers.None? && revoked == [] && !requireSigned
    }

    predicate Lists(digest: string) {
      allow.Some? && exists i :: 0 <= i < |allow.value| && allow.value[i].1 == digest
    }

    /** Some entry of this level, if it lists signers at all, allows `s`. */
    predicate Admits(s: Signer) {
      signers.Some? ==> exists rule :: rule in signers.value && rule.Allows(s)
    }
  }

  datatype FactoryPolicy = FactoryPolicy(
    enforcement: Enforcement,
    allow: Option<map<string, Option<string>>>,   // by digest
    unpinned: seq<string>,
    requireSigned: bool,
    signers: Option<set<Signer>>,
    revoked: seq<Revoked>,
    present: bool)
  {
    predicate Applies() { enforcement != Off }
  }

  // ------------------------------------------------------------------ what a merge must be

  predicate AnyPresent(docs: seq<Document>) { exists d :: d in docs && d.present }
  predicate AnyAllow(docs: seq<Document>) { exists d :: d in docs && d.allow.Some? }
  predicate AnySigners(docs: seq<Document>) { exists d :: d in docs && d.signers.Some? }
  predicate AnyRequire(docs: seq<Document>) { exists d :: d in docs && d.requireSigned }
  predicate AnyTop(docs: seq<Document>) { exists d :: d in docs && d.top.Some? }

  predicate AllList(docs: seq<Document>, digest: string) {
    forall d :: d in docs && d.allow.Some? ==> d.Lists(digest)
  }

  predicate AllAdmit(docs: seq<Document>, s: Signer) {
    forall d :: d in docs ==> d.Admits(s)
  }

  predicate AnyNames(docs: seq<Document>, s: Signer) {
    exists d :: d in docs && d.signers.Some? && s in d.signers.value
  }

  predicate AnyRevokes(docs: seq<Document>, r: Revoked) {
    exists d :: d in docs && r in d.revoked
  }

  predicate AnyUnpinned(docs: seq<Document>, p: string) {
    exists d :: d in docs && d.allow.Some? && p in d.unpinned
  }

  /** Every level that is present says "warn", and there is one. */
  predicate Lenient(docs: seq<Document>) {
    AnyPresent(docs) && forall d :: d in docs && d.present ==> d.enforcement == Some(LevelWarn)
  }

  /** Top-level "off" is set, and no level sets it stricter. */
  predicate SwitchedOff(docs: seq<Document>) {
    AnyTop(docs) && forall d :: d in docs && d.top.Some? ==> d.top == Some(TopOff)
  }

  function Effective(docs: seq<Document>): Enforcement {
    if SwitchedOff(docs) then Off else if Lenient(docs) then Warn else Block
  }

  ghost predicate AllowIs(docs: seq<Document>, allow: Option<map<string, Option<string>>>) {
    && (allow.Some? <==> AnyAllow(docs))
    && (allow.Some? ==> forall digest :: digest in allow.value <==> AllList(docs, digest))
  }

  ghost predicate UnpinnedIs(docs: seq<Document>, unpinned: seq<string>) {
    forall u :: u in unpinned <==> AnyUnpinned(docs, u)
  }

  ghost predicate RevokedIs(docs: seq<Document>, revoked: seq<Revoked>) {
    forall r :: r in revoked <==> AnyRevokes(docs, r)
  }

  ghost predicate SignersAre(docs: seq<Document>, signers: Option<set<Signer>>) {
    && (signers.Some? <==> AnySigners(docs))
    && (signers.Some? ==> forall s :: s in signers.value <==> AnyNames(docs, s) && AllAdmit(docs, s))
  }

  /** The merged policy, said of the documents as a set. */
  ghost predicate Merges(docs: seq<Document>, p: FactoryPolicy) {
    && p.enforcement == Effective(docs)
    && AllowIs(docs, p.allow)
    && UnpinnedIs(docs, p.unpinned)
    && (p.requireSigned <==> AnyRequire(docs))
    && SignersAre(docs, p.signers)
    && RevokedIs(docs, p.revoked)
    && (p.present <==> AnyPresent(docs))
  }

  // ------------------------------------------------------------------ the loop

  /** `{digest: name for name, digest in document["allow"]}`: the last entry of a digest names it. */
  function EntriesOf(listed: seq<(Option<string>, string)>): map<string, Option<string>> {
    if listed == [] then map[]
    else EntriesOf(listed[..|listed| - 1])[listed[|listed| - 1].1 := listed[|listed| - 1].0]
  }

  method Entries(listed: seq<(Option<string>, string)>) returns (entries: map<string, Option<string>>)
    ensures entries == EntriesOf(listed)
  {
    entries := map[];
    for k := 0 to |listed|
      invariant entries == EntriesOf(listed[..k])
    {
      assert listed[..k + 1][..k] == listed[..k];
      entries := entries[listed[k].1 := listed[k].0];
    }
    assert listed[..|listed|] == listed;
  }

  lemma {:induction false} EntriesHold(listed: seq<(Option<string>, string)>)
    ensures forall digest :: digest in EntriesOf(listed) <==> exists i :: 0 <= i < |listed| && listed[i].1 == digest
  {
    if listed != [] {
      EntriesHold(listed[..|listed| - 1]);
    }
  }

  /** `[x for x in more if x not in known]`: repeats within `more` itself stay. */
  function Fresh<T(==, !new)>(known: seq<T>, more: seq<T>): (novel: seq<T>)
    ensures forall x :: x in novel <==> x in more && x !in known
  {
    if more == [] then []
    else (if more[0] in known then [] else [more[0]]) + Fresh(known, more[1..])
  }

  /** What stays of the digests allowed so far, and the name each keeps. */
  function Narrow(allow: Option<map<string, Option<string>>>, entries: map<string, Option<string>>)
      : (narrowed: map<string, Option<string>>)
    ensures narrowed.Keys == if allow.None? then entries.Keys else entries.Keys * allow.value.Keys
  {
    if allow.None? then entries
    else
      map digest | digest in entries && digest in allow.value ::
        if allow.value[digest].Some? then allow.value[digest] else entries[digest]
  }

  /** The allowed digests of a chain, each under the name of the first level that names it. */
  function AllowOf(docs: seq<Document>): Option<map<string, Option<string>>> {
    if docs == [] then None
    else
      var allow, d := AllowOf(docs[..|docs| - 1]), docs[|docs| - 1];
      if d.allow.Some? then Some(Narrow(allow, EntriesOf(d.allow.value))) else allow
  }

  function UnpinnedOf(docs: seq<Document>): seq<string> {
    if docs == [] then []
    else
      var unpinned, d := UnpinnedOf(docs[..|docs| - 1]), docs[|docs| - 1];
      if d.allow.Some? then unpinned + Fresh(unpinned, d.unpinned) else unpinned
  }

  function RevokedOf(docs: seq<Document>): seq<Revoked> {
    if docs == [] then []
    else
      var revoked := RevokedOf(docs[..|docs| - 1]);
      revoked + Fresh(revoked, docs[|docs| - 1].revoked)
  }

  lemma AllowGrows(docs: seq<Document>, d: Document, allow: Option<map<string, Option<string>>>,
                   entries: map<string, Option<string>>)
    requires AllowIs(docs, allow)
    requires d.allow.Some? ==> forall digest :: digest in entries <==> d.Lists(digest)
    ensures AllowIs(docs + [d], if d.allow.Some? then Some(Narrow(allow, entries)) else allow)
  {
  }

  lemma UnpinnedGrows(docs: seq<Document>, d: Document, unpinned: seq<string>, all: seq<string>)
    requires UnpinnedIs(docs, unpinned)
    requires forall u :: u in all <==> u in unpinned || (d.allow.Some? && u in d.unpinned)
    ensures UnpinnedIs(docs + [d], all)
  {
  }

  lemma RevokedGrows(docs: seq<Document>, d: Document, revoked: seq<Revoked>, all: seq<Revoked>)
    requires RevokedIs(docs, revoked)
    requires forall r :: r in all <==> r in revoked || r in d.revoked
    ensures RevokedIs(docs + [d], all)
  {
  }

  /** What the three accumulated lists hold. */
  lemma {:induction false} ListsHold(docs: seq<Document>)
    ensures AllowIs(docs, AllowOf(docs)) && UnpinnedIs(docs, UnpinnedOf(docs)) && RevokedIs(docs, RevokedOf(docs))
  {
    hide AllowIs, UnpinnedIs, RevokedIs, Narrow, EntriesOf;
    if docs == [] {
      Start();
    } else {
      var init, d := docs[..|docs| - 1], docs[|docs| - 1];
      ListsHold(init);
      assert docs == init + [d];
      if d.allow.Some? {
        EntriesHold(d.allow.value);
        AllowGrows(init, d, AllowOf(init), EntriesOf(d.allow.value));
      } else {
        AllowGrows(init, d, AllowOf(init), map[]);
      }
      UnpinnedGrows(init, d, UnpinnedOf(init), UnpinnedOf(docs));
      RevokedGrows(init, d, RevokedOf(init), RevokedOf(docs));
    }
  }

  predicate AllowedBy(level: seq<Signer>, s: Signer) {
    exists rule :: rule in level && rule.Allows(s)
  }

  /** What the loop keeps of the levels that list signers. */
  ghost predicate Levels(docs: seq<Document>, levels: seq<seq<Signer>>) {
    forall l :: l in levels <==> exists d :: d in docs && d.signers == Some(l)
  }

  lemma LevelsGrow(docs: seq<Document>, d: Document, levels: seq<seq<Signer>>)
    requires Levels(docs, levels)
    ensures Levels(docs + [d], if d.signers.Some? then levels + [d.signers.value] else levels)
  {
  }

  /** `set().union(*levels)`, of which those every level allows are kept. */
  method Shared(levels: seq<seq<Signer>>) returns (signers: set<Signer>)
    ensures forall s :: s in signers <==>
      (exists l :: l in levels && s in l) && forall l :: l in levels ==> AllowedBy(l, s)
  {
    hide AllowedBy;
    var candidates: set<Signer> := {};
    for k := 0 to |levels|
      invariant forall s :: s in candidates <==> exists l :: l in levels[..k] && s in l
    {
      assert levels[..k + 1] == levels[..k] + [levels[k]];
      assert levels[k] in levels[..k + 1];
      candidates := candidates + set s | s in levels[k];
    }
    assert levels[..|levels|] == levels;
    signers := set s | s in candidates && forall l :: l in levels ==> AllowedBy(l, s);
  }

  lemma SharedAre(docs: seq<Document>, levels: seq<seq<Signer>>, signers: set<Signer>)
    requires Levels(docs, levels)
    requires forall s :: s in signers <==>
      (exists l :: l in levels && s in l) && forall l :: l in levels ==> AllowedBy(l, s)
    ensures SignersAre(docs, if levels == [] then None else Some(signers))
  {
    hide Signer.Allows;
    if levels != [] {
      assert levels[0] in levels;
    }
    forall d | d in docs && d.signers.Some? ensures d.signers.value in levels {
    }
    forall s ensures (exists l :: l in levels && s in l) <==> AnyNames(docs, s) {
    }
    forall s ensures (forall l :: l in levels ==> AllowedBy(l, s)) <==> AllAdmit(docs, s) {
      forall d | d in docs && d.signers.Some? ensures d.Admits(s) <==> AllowedBy(d.signers.value, s) {
      }
      if AllAdmit(docs, s) {
        forall l | l in levels ensures AllowedBy(l, s) {
          var d :| d in docs && d.signers == Some(l);
          assert d.Admits(s);
        }
      }
    }
  }

  /** The flags of the loop, over the documents seen. */
  predicate Flags(docs: seq<Document>, present: bool, requireSigned: bool, anyTop: bool, allOff: bool, anyBlock: bool) {
    && (present <==> AnyPresent(docs))
    && (requireSigned <==> AnyRequire(docs))
    && (anyTop <==> AnyTop(docs))
    && (allOff <==> forall d :: d in docs && d.top.Some? ==> d.top == Some(TopOff))
    && (anyBlock <==> exists d :: d in docs && d.present && d.enforcement != Some(LevelWarn))
  }

  lemma FlagsGrow(docs: seq<Document>, d: Document, present: bool, requireSigned: bool, anyTop: bool, allOff: bool,
                  anyBlock: bool)
    requires Flags(docs, present, requireSigned, anyTop, allOff, anyBlock)
    ensures Flags(docs + [d], present || d.present, requireSigned || d.requireSigned, anyTop || d.top.Some?,
                  allOff && (d.top.Some? ==> d.top.value == TopOff),
                  anyBlock || (d.present && d.enforcement != Some(LevelWarn)))
  {
  }

  /** `merge` over the documents of one chain. */
  method Merge(docs: seq<Document>) returns (p: FactoryPolicy)
    ensures Merges(docs, p)
    ensures p.allow == AllowOf(docs) && p.unpinned == UnpinnedOf(docs) && p.revoked == RevokedOf(docs)
  {
    hide AllowIs, UnpinnedIs, RevokedIs, Levels, Flags, Narrow;
    var allow: Option<map<string, Option<string>>> := None;
    var unpinned: seq<string>, revoked: seq<Revoked> := [], [];
    var levels: seq<seq<Signer>> := [];
    var requireSigned, present, anyBlock, anyTop, allOff := false, false, false, false, true;
    Start();
    for k := 0 to |docs|
      invariant Flags(docs[..k], present, requireSigned, anyTop, allOff, anyBlock)
      invariant allow == AllowOf(docs[..k]) && unpinned == UnpinnedOf(docs[..k]) && revoked == RevokedOf(docs[..k])
      invariant Levels(docs[..k], levels)
    {
      var document := docs[k];
      assert docs[..k + 1] == docs[..k] + [document];
      FlagsGrow(docs[..k], document, present, requireSigned, anyTop, allOff, anyBlock);
      present := present || document.present;
      if document.top.Some? {
        anyTop, allOff := true, allOff && document.top.value == TopOff;
      }
      if document.present {
        anyBlock := anyBlock || document.enforcement != Some(LevelWarn);
      }
      if document.allow.Some? {
        var entries := Entries(document.allow.value);
        allow := Some(Narrow(allow, entries));
        unpinned := unpinned + Fresh(unpinned, document.unpinned);
      }
      LevelsGrow(docs[..k], document, levels);
      if document.signers.Some? {
        levels := levels + [document.signers.value];
      }
      requireSigned := requireSigned || document.requireSigned;
      revoked := revoked + Fresh(revoked, document.revoked);
    }
    assert docs[..|docs|] == docs;
    var signers := Shared(levels);
    SharedAre(docs, levels, signers);
    ListsHold(docs);
    var enforcement := if !present || anyBlock then Block else Warn;
    if anyTop && allOff {
      enforcement := Off;
    }
    EnforcementIs(docs, present, requireSigned, anyTop, allOff, anyBlock);
    p := FactoryPolicy(enforcement, allow, unpinned, requireSigned,
                       if levels == [] then None else Some(signers), revoked, present);
  }

  lemma Start()
    ensures Flags([], false, false, false, true, false) && AllowIs([], None)
    ensures UnpinnedIs([], []) && RevokedIs([], []) && Levels([], [])
  {
  }

  lemma EnforcementIs(docs: seq<Document>, present: bool, requireSigned: bool, anyTop: bool, allOff: bool,
                      anyBlock: bool)
    requires Flags(docs, present, requireSigned, anyTop, allOff, anyBlock)
    ensures Effective(docs) == if anyTop && allOff then Off else if !present || anyBlock then Block else Warn
    ensures present == AnyPresent(docs) && requireSigned == AnyRequire(docs)
  {
  }

  // ------------------------------------------------------------------ judging a receipt

  datatype Status = Pass | Fail | Warned

  function Violation(p: FactoryPolicy): Status {
    if p.enforcement == Block then Fail else Warned
  }

  function EvaluateFactory(p: FactoryPolicy, digest: string): Status {
    if p.allow.None? || digest in p.allow.value then Pass else Violation(p)
  }

  datatype Capability = Capability(purl: string, body: string)

  predicate IsRevoked(p: FactoryPolicy, bindings: seq<Capability>) {
    exists b :: b in bindings && Revoked(b.purl, b.body) in p.revoked
  }

  method EvaluateRevocation(p: FactoryPolicy, bindings: seq<Capability>) returns (status: Status)
    ensures status == if IsRevoked(p, bindings) then Violation(p) else Pass
  {
    for k := 0 to |bindings|
      invariant !IsRevoked(p, bindings[..k])
    {
      assert bindings[..k + 1] == bindings[..k] + [bindings[k]];
      if Revoked(bindings[k].purl, bindings[k].body) in p.revoked {
        assert bindings[k] in bindings;
        return Violation(p);
      }
    }
    assert bindings[..|bindings|] == bindings;
    return Pass;
  }

  /** None where the policy does not ask for signatures. */
  function EvaluateUnsigned(p: FactoryPolicy): Option<Status> {
    if p.requireSigned then Some(Violation(p)) else None
  }

  /**
   * What a verified attestation shows: the signing workflow and ref, the repository that stores it,
   * and the commits its signer digest stands for.
   */
  datatype Certificate = Certificate(workflow: string, ref: string, repo: string, shas: set<string>)

  /** Found under this entry, where an entry without a repository means the audited one's. */
  predicate Finds(s: Signer, home: Option<string>, c: Certificate) {
    && s.workflow == c.workflow
    && (if s.repo.Some? then s.repo else home) == Some(c.repo)
    && (s.ref.Some? ==> s.ref.value == c.ref)
  }

  predicate Accepts(s: Signer, home: Option<string>, c: Certificate) {
    Finds(s, home, c) && (s.sha.Some? ==> s.sha.value in c.shas)
  }

  predicate AnyAccepts(signers: set<Signer>, home: Option<string>, c: Certificate) {
    exists s :: s in signers && Accepts(s, home, c)
  }

  predicate AnyFinds(signers: set<Signer>, home: Option<string>, c: Certificate) {
    exists s :: s in signers && Finds(s, home, c)
  }

  /** The Identity row of an attested file under a policy that applies. */
  function JudgeIdentity(p: FactoryPolicy, home: Option<string>, c: Certificate): Status {
    if p.signers.None? || p.signers.value == {} then
      if p.requireSigned then Violation(p) else Warned
    else if AnyAccepts(p.signers.value, home, c) then Pass
    else if AnyFinds(p.signers.value, home, c) then Violation(p)
    else if p.requireSigned then Violation(p) else Warned
  }
}
