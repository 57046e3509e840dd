/** The query that reads the rows behind the bound proofs back, and the reader's checks of what it returns. */
module BlockerRows {
  import opened Wrappers
  import opened CalendarAge
  import opened BlockerAge
  import opened BlockerAdvice
  import opened BlockerTheorems

  /** `readable`: its evidence and source exist, access is available and the reader is listed for it. */
  datatype VersionRow = VersionRow(id: nat, factId: nat, revision: nat, evidenceId: nat, sourceId: nat, confirmed: bool,
                                   statement: bool, readable: bool, value: (Kind, Raw))

  /** An aggregate with one of its revisions; `inForce`: enabled, recorded and effective. */
  datatype PolicyRow = PolicyRow(factType: FactType, policy: Policy, inForce: bool)

  datatype Tables = Tables(facts: seq<Fact>, policies: seq<PolicyRow>, versions: seq<VersionRow>)

  /** A row of the query, with the request that it joins. */
  datatype Bound = Bound(of: Binding, row: VersionRow)

  // ---------- the query ----------

  predicate Wanted(v: VersionRow, b: Binding) {
    v.factId == b.factId && v.id in b.versionIds && v.revision <= b.factRevision && v.readable
  }

  function VersionsFor(vs: seq<VersionRow>, b: Binding): seq<VersionRow> {
    if vs == [] then [] else (if Wanted(vs[0], b) then [vs[0]] else []) + VersionsFor(vs[1..], b)
  }

  function Tagged(b: Binding, vs: seq<VersionRow>): seq<Bound> {
    seq(|vs|, i requires 0 <= i < |vs| => Bound(b, vs[i]))
  }

  function Times<T>(n: nat, s: seq<T>): seq<T> { if n == 0 then [] else s + Times(n - 1, s) }

  /** Every fact, policy and version that join one request. */
  function RowsFor(t: Tables, b: Binding): seq<Bound> {
    var facts := multiset(t.facts)[Fact(b.factId, b.factType, b.factRevision)];
    var policies := multiset(t.policies)[PolicyRow(b.factType, b.policy, true)];
    Times(facts * policies, Tagged(b, VersionsFor(t.versions, b)))
  }

  function Rows(t: Tables, proofs: seq<Binding>): seq<Bound> {
    if proofs == [] then [] else Rows(t, proofs[..|proofs| - 1]) + RowsFor(t, proofs[|proofs| - 1])
  }

  // ---------- the checks ----------

  function BoundTo(b: Binding): Bound -> bool { (r: Bound) => r.of.factId == b.factId && r.of.factType == b.factType }

  function VersionIds(rows: seq<Bound>): seq<nat> { seq(|rows|, i requires 0 <= i < |rows| => rows[i].row.id) }

  function EvidenceIds(rows: seq<Bound>): seq<nat> { seq(|rows|, i requires 0 <= i < |rows| => rows[i].row.evidenceId) }

  predicate ValueAgrees(v: (Kind, Raw), expected: Raw) {
    && (expected.Flag? ==> v == (BooleanKind, expected))
    && (expected.Day? ==> v == (DateKind, expected))
  }

  predicate RowAgrees(r: Bound, b: Binding, dependencies: set<(nat, nat)>) {
    && r.of.factRevision == b.factRevision && r.of.policy == b.policy
    && r.row.confirmed && r.row.statement && (b.factId, r.row.sourceId) in dependencies
    && ValueAgrees(r.row.value, b.expected)
  }

  /** Sorted lists are compared, which is to compare how often each identifier occurs. */
  predicate ProofMatches(rows: seq<Bound>, b: Binding, dependencies: set<(nat, nat)>) {
    && multiset(VersionIds(rows)) == multiset(b.versionIds)
    && (forall r :: r in rows ==> RowAgrees(r, b, dependencies))
    && multiset(EvidenceIds(rows)) == multiset(b.evidenceIds)
  }

  predicate RowsPass(t: Tables, proofs: seq<Binding>, dependencies: set<(nat, nat)>) {
    var rows := Rows(t, proofs);
    && (forall b :: b in proofs ==> ProofMatches(Filter(BoundTo(b), rows), b, dependencies))
    && |rows| == VersionCount(proofs)
  }

  /** The reader to its end: what was observed, if the rows read back agree with it. */
  function Advise(b: Built, threshold: Option<int>, asOf: Date, readable: bool, t: Tables): Result<Advice, Error> {
    var seen :- Observe(b, threshold, asOf, readable);
    if seen.Grounded? && !RowsPass(t, seen.proofs, b.dependencies) then Err(Unavailable) else Ok(seen)
  }

  // ---------- the rows of the build are still stored ----------

  /** The fact, its policy and the versions that were read are stored as they were read: each supporting version is one of
      those prepared and has the resolved value, and the evidence is theirs. */
  ghost predicate Kept(t: Tables, f: Fact, p: Prepared) {
    && multiset(t.facts)[f] == 1
    && (p.policy.Some? ==> multiset(t.policies)[PolicyRow(f.factType, p.policy.value, true)] == 1)
    && (forall id :: id in p.supporting ==> exists v :: v in t.versions && v.factId == f.id && v.id == id)
    && (forall v :: v in t.versions && v.factId == f.id && v.id in p.supporting ==> KeptVersion(v, f, p))
    && (forall e :: e in p.evidence <==> exists v :: v in t.versions && v.factId == f.id && v.id in p.supporting && v.evidenceId == e)
  }

  ghost predicate KeptVersion(v: VersionRow, f: Fact, p: Prepared) {
    && v.revision <= f.revision && p.value == Some(v.value)
    && exists w :: w in p.versions && w.id == v.id && w.sourceId == v.sourceId
                   && (w.trusted ==> v.confirmed && v.statement && v.readable)
  }

  ghost predicate StillStored(env: Env, t: Tables) {
    && (forall i, j :: 0 <= i < j < |t.versions| ==> t.versions[i].id != t.versions[j].id)
    && forall ft :: FactOf(env.facts, ft).Some? && env.prepared(ft).Some? && env.prepared(ft).value.resolved
         ==> Kept(t, FactOf(env.facts, ft).value, env.prepared(ft).value)
  }

  /** No evidence stands behind two of the versions a proof rests on. */
  predicate EvidenceOnce(t: Tables, b: Binding) {
    NoRepeat(EvidenceIds(Tagged(b, VersionsFor(t.versions, b))))
  }

  // ---------- the rows of one proof ----------

  lemma {:induction false} VersionsForHave(vs: seq<VersionRow>, b: Binding, v: VersionRow)
    ensures v in VersionsFor(vs, b) <==> v in vs && Wanted(v, b)
  {
    if vs != [] {
      VersionsForHave(vs[1..], b, v);
      assert vs == [vs[0]] + vs[1..];
    }
  }

  lemma {:induction false} VersionsForKeyed(vs: seq<VersionRow>, b: Binding)
    requires forall i, j :: 0 <= i < j < |vs| ==> vs[i].id != vs[j].id
    ensures NoRepeat(VersionIds(Tagged(b, VersionsFor(vs, b))))
  {
    if vs != [] {
      VersionsForKeyed(vs[1..], b);
      var rest := VersionsFor(vs[1..], b);
      forall k | 0 <= k < |rest|
        ensures rest[k].id != vs[0].id
      {
        VersionsForHave(vs[1..], b, rest[k]);
        var n :| 0 <= n < |vs| - 1 && vs[1..][n] == rest[k];
      }
      KeyedRest(b, vs[0], rest);
    }
  }

  lemma KeyedRest(b: Binding, v: VersionRow, rest: seq<VersionRow>)
    requires NoRepeat(VersionIds(Tagged(b, rest))) && forall k :: 0 <= k < |rest| ==> rest[k].id != v.id
    ensures NoRepeat(VersionIds(Tagged(b, [v] + rest)))
    ensures [] + rest == rest
  {
    assert VersionIds(Tagged(b, [v] + rest)) == [v.id] + VersionIds(Tagged(b, rest));
    forall x | x in VersionIds(Tagged(b, rest))
      ensures x != v.id
    {
    }
    NoRepeatFirst(v.id, VersionIds(Tagged(b, rest)));
  }

  lemma NoRepeatFirst(x: nat, s: seq<nat>)
    requires NoRepeat(s) && x !in s
    ensures NoRepeat([x] + s)
  {
    var all := [x] + s;
    assert forall i :: 0 < i < |all| ==> all[i] == s[i - 1] && s[i - 1] in s;
  }

  /** Two lists with the same members, one of them without repetition, are permutations exactly if the other has none. */
  lemma {:induction false} SameMembers(a: seq<nat>, b: seq<nat>)
    requires NoRepeat(b) && forall x :: x in a <==> x in b
    ensures multiset(a) == multiset(b) <==> NoRepeat(a)
  {
    forall x
      ensures multiset(b)[x] <= 1
    {
      OccursOnce(b, x);
    }
    if NoRepeat(a) {
      forall x
        ensures multiset(a)[x] == multiset(b)[x]
      {
        OccursOnce(a, x);
      }
    } else {
      var i, j :| 0 <= i < j < |a| && a[i] == a[j];
      assert a == a[..j] + a[j..];
      assert a[..j][i] == a[i] && a[j..][0] == a[j];
      assert multiset(a)[a[i]] >= 2;
    }
  }

  lemma {:induction false} OccursOnce(s: seq<nat>, x: nat)
    requires NoRepeat(s)
    ensures multiset(s)[x] == if x in s then 1 else 0
  {
    if s != [] {
      assert s == [s[0]] + s[1..];
      OccursOnce(s[1..], x);
    }
  }

  lemma TimesOnce<T>(s: seq<T>)
    ensures Times(1, s) == s
  {
    assert Times(0, s) == [];
    assert s + [] == s;
  }

  /** What a binding rests on. */
  ghost predicate Rests(env: Env, b: Binding) {
    && FactOf(env.facts, b.factType).Some? && env.prepared(b.factType).Some?
    && var f, p := FactOf(env.facts, b.factType).value, env.prepared(b.factType).value;
    && p.resolved && p.policy.Some? && p.value.Some? && NoRepeat(p.supporting)
    && (forall v :: v in p.versions && v.id in p.supporting ==> v.trusted)
    && b == Binding(f.id, f.factType, f.revision, p.policy.value, p.supporting, Unique(p.evidence), p.value.value.1)
    && ValueAgrees(p.value.value, b.expected)
    && (forall v :: v in p.versions ==> (f.id, v.sourceId) in DependenciesOf(env, Touched(env)))
  }

  lemma RowsOfProof(env: Env, t: Tables, b: Binding)
    requires StillStored(env, t) && Rests(env, b)
    ensures RowsFor(t, b) == Tagged(b, VersionsFor(t.versions, b))
    ensures forall v :: v in t.versions && v.factId == b.factId && v.id in b.versionIds ==> Wanted(v, b)
  {
    var f, p := FactOf(env.facts, b.factType).value, env.prepared(b.factType).value;
    assert Kept(t, f, p);
    TimesOnce(Tagged(b, VersionsFor(t.versions, b)));
    assert f == Fact(b.factId, b.factType, b.factRevision);
    forall v | v in t.versions && v.factId == b.factId && v.id in b.versionIds
      ensures Wanted(v, b)
    {
      assert KeptVersion(v, f, p);
    }
    hide Times, Tagged, VersionsFor, Unique, DependenciesOf, Touched;
  }

  lemma RowOfProof(env: Env, t: Tables, b: Binding, r: Bound)
    requires StillStored(env, t) && Rests(env, b) && r.of == b && r.row in t.versions && Wanted(r.row, b)
    ensures RowAgrees(r, b, DependenciesOf(env, Touched(env)))
  {
    var f, p := FactOf(env.facts, b.factType).value, env.prepared(b.factType).value;
    assert Kept(t, f, p);
    assert KeptVersion(r.row, f, p);
    hide Unique, DependenciesOf, Touched, Kept;
  }

  lemma IdsOf(rows: seq<Bound>, x: nat)
    ensures x in VersionIds(rows) <==> exists r :: r in rows && r.row.id == x
    ensures x in EvidenceIds(rows) <==> exists r :: r in rows && r.row.evidenceId == x
  {
    if x in VersionIds(rows) {
      var i :| 0 <= i < |rows| && VersionIds(rows)[i] == x;
      assert rows[i] in rows;
    }
    if x in EvidenceIds(rows) {
      var i :| 0 <= i < |rows| && EvidenceIds(rows)[i] == x;
      assert rows[i] in rows;
    }
    if r :| r in rows && r.row.id == x {
      var i :| 0 <= i < |rows| && rows[i] == r;
      assert VersionIds(rows)[i] == x;
    }
    if r :| r in rows && r.row.evidenceId == x {
      var i :| 0 <= i < |rows| && rows[i] == r;
      assert EvidenceIds(rows)[i] == x;
    }
  }

  lemma TaggedHas(b: Binding, vs: seq<VersionRow>, r: Bound)
    ensures r in Tagged(b, vs) <==> r.of == b && r.row in vs
  {
    if r.of == b && r.row in vs {
      var i :| 0 <= i < |vs| && vs[i] == r.row;
      assert Tagged(b, vs)[i] == r;
    }
  }

  lemma IsRow(env: Env, t: Tables, b: Binding, r: Bound)
    requires StillStored(env, t) && Rests(env, b)
    ensures r in RowsFor(t, b) <==> r.of == b && r.row in t.versions && r.row.factId == b.factId && r.row.id in b.versionIds
    ensures r in RowsFor(t, b) ==> RowAgrees(r, b, DependenciesOf(env, Touched(env)))
  {
    RowsOfProof(env, t, b);
    TaggedHas(b, VersionsFor(t.versions, b), r);
    VersionsForHave(t.versions, b, r.row);
    hide RowAgrees, Rests, StillStored, DependenciesOf, Touched, RowsFor, VersionsFor, Tagged;
    if r in RowsFor(t, b) {
      RowOfProof(env, t, b, r);
    }
  }

  lemma VersionsFound(env: Env, t: Tables, b: Binding, x: nat)
    requires StillStored(env, t) && Rests(env, b)
    ensures x in VersionIds(RowsFor(t, b)) <==> x in b.versionIds
    ensures x in EvidenceIds(RowsFor(t, b)) <==> x in b.evidenceIds
  {
    var f, p := FactOf(env.facts, b.factType).value, env.prepared(b.factType).value;
    assert Kept(t, f, p);
    UniqueIs(p.evidence);
    IdsOf(RowsFor(t, b), x);
    hide RowAgrees, RowsFor, VersionIds, EvidenceIds, KeptVersion, DependenciesOf, Touched, Unique;
    forall r | r in RowsFor(t, b)
      ensures r.row in t.versions && r.row.factId == f.id && r.row.id in p.supporting
    {
      IsRow(env, t, b, r);
    }
    if v :| v in t.versions && v.factId == f.id && v.id in p.supporting && v.id == x {
      IsRow(env, t, b, Bound(b, v));
    }
    if v :| v in t.versions && v.factId == f.id && v.id in p.supporting && v.evidenceId == x {
      IsRow(env, t, b, Bound(b, v));
    }
  }

  /** The rows of a proof that rests on stored rows pass exactly if no evidence is behind two of them. */
  lemma ProofMatchesIff(env: Env, t: Tables, b: Binding)
    requires StillStored(env, t) && Rests(env, b)
    ensures ProofMatches(RowsFor(t, b), b, DependenciesOf(env, Touched(env))) <==> EvidenceOnce(t, b)
    ensures |RowsFor(t, b)| == |b.versionIds|
  {
    var rows, p := RowsFor(t, b), env.prepared(b.factType).value;
    RowsOfProof(env, t, b);
    VersionsForKeyed(t.versions, b);
    UniqueIs(p.evidence);
    assert NoRepeat(b.versionIds) && NoRepeat(b.evidenceIds);
    forall x
      ensures x in VersionIds(rows) <==> x in b.versionIds
      ensures x in EvidenceIds(rows) <==> x in b.evidenceIds
    {
      VersionsFound(env, t, b, x);
    }
    forall r | r in rows
      ensures RowAgrees(r, b, DependenciesOf(env, Touched(env)))
    {
      IsRow(env, t, b, r);
    }
    SameMembers(VersionIds(rows), b.versionIds);
    SameMembers(EvidenceIds(rows), b.evidenceIds);
    assert |multiset(VersionIds(rows))| == |multiset(b.versionIds)|;
    hide RowAgrees, RowsFor, StillStored, Rests, DependenciesOf, Touched, NoRepeat, VersionsFor, Tagged;
  }

  // ---------- the rows of all proofs ----------

  predicate TypesDiffer(proofs: seq<Binding>) { forall i, j :: 0 <= i < j < |proofs| ==> proofs[i].factType != proofs[j].factType }

  lemma TaggedApart(b: Binding, q: Binding, vs: seq<VersionRow>)
    ensures q.factType != b.factType ==> Filter(BoundTo(b), Tagged(q, vs)) == []
    ensures q == b ==> Filter(BoundTo(b), Tagged(q, vs)) == Tagged(q, vs)
  {
    FilterAll(BoundTo(b), Tagged(q, vs));
  }

  lemma {:induction false} OthersRows(t: Tables, proofs: seq<Binding>, b: Binding)
    requires forall q :: q in proofs ==> q.factType != b.factType
    requires forall q :: q in proofs ==> RowsFor(t, q) == Tagged(q, VersionsFor(t.versions, q))
    ensures Filter(BoundTo(b), Rows(t, proofs)) == []
  {
    hide RowsFor, Tagged, VersionsFor, BoundTo;
    if proofs != [] {
      var q := proofs[|proofs| - 1];
      OthersRows(t, proofs[..|proofs| - 1], b);
      FilterAppend(BoundTo(b), Rows(t, proofs[..|proofs| - 1]), RowsFor(t, q));
      TaggedApart(b, q, VersionsFor(t.versions, q));
    }
  }

  /** What the query returns for several proofs falls apart into what it returns for each. */
  lemma {:induction false} RowsApart(t: Tables, proofs: seq<Binding>, k: nat)
    requires k < |proofs| && TypesDiffer(proofs)
    requires forall q :: q in proofs ==> RowsFor(t, q) == Tagged(q, VersionsFor(t.versions, q))
    ensures Filter(BoundTo(proofs[k]), Rows(t, proofs)) == RowsFor(t, proofs[k])
  {
    hide RowsFor, Tagged, VersionsFor, BoundTo;
    var n := |proofs| - 1;
    var before, last, keep := Rows(t, proofs[..n]), RowsFor(t, proofs[n]), BoundTo(proofs[k]);
    assert Rows(t, proofs) == before + last;
    hide Rows, Filter;
    FilterAppend(keep, before, last);
    TaggedApart(proofs[k], proofs[n], VersionsFor(t.versions, proofs[n]));
    if k < n {
      assert proofs[..n][k] == proofs[k];
      RowsApart(t, proofs[..n], k);
      assert RowsFor(t, proofs[k]) + [] == RowsFor(t, proofs[k]);
    } else {
      OthersRows(t, proofs[..n], proofs[k]);
      assert [] + last == last;
    }
  }

  lemma {:induction false} RowsCount(t: Tables, proofs: seq<Binding>)
    requires forall q :: q in proofs ==> |RowsFor(t, q)| == |q.versionIds|
    ensures |Rows(t, proofs)| == VersionCount(proofs)
  {
    hide RowsFor;
    if proofs != [] {
      RowsCount(t, proofs[..|proofs| - 1]);
    }
  }

  /** The rows read back pass exactly if no proof has two versions with the same evidence. */
  lemma RowsPassIff(env: Env, t: Tables, proofs: seq<Binding>)
    requires StillStored(env, t) && TypesDiffer(proofs) && forall b :: b in proofs ==> Rests(env, b)
    ensures RowsPass(t, proofs, DependenciesOf(env, Touched(env))) <==> forall b :: b in proofs ==> EvidenceOnce(t, b)
  {
    var dependencies := DependenciesOf(env, Touched(env));
    forall b | b in proofs
      ensures RowsFor(t, b) == Tagged(b, VersionsFor(t.versions, b)) && |RowsFor(t, b)| == |b.versionIds|
      ensures ProofMatches(RowsFor(t, b), b, dependencies) <==> EvidenceOnce(t, b)
    {
      RowsOfProof(env, t, b);
      ProofMatchesIff(env, t, b);
    }
    hide StillStored, Rests, RowsFor, ProofMatches, EvidenceOnce, Rows, DependenciesOf, Touched, TypesDiffer, BoundTo, Filter;
    RowsCount(t, proofs);
    forall b | b in proofs
      ensures Filter(BoundTo(b), Rows(t, proofs)) == RowsFor(t, b)
    {
      var k :| 0 <= k < |proofs| && proofs[k] == b;
      RowsApart(t, proofs, k);
    }
  }

  // ---------- what the bound proofs rest on ----------

  lemma {:induction false} DependenciesHave(env: Env, types: seq<FactType>, ft: FactType, v: Version)
    requires ft in types && FactOf(env.facts, ft).Some? && env.prepared(ft).Some? && v in env.prepared(ft).value.versions
    ensures (FactOf(env.facts, ft).value.id, v.sourceId) in DependenciesOf(env, types)
  {
    if types[0] != ft {
      DependenciesHave(env, types[1..], ft, v);
    }
  }

  lemma ProofRests(env: Env, ft: FactType, kind: Kind, period: bool)
    requires Sound(env) && ft in Touched(env) && ProofOf(env, ft, kind, period).resolved && !kind.OtherKind?
    ensures var proof := ProofOf(env, ft, kind, period);
      proof.value.Some? &&
      var b := BindingOf(proof, ft, proof.value.value, AuthoritiesOf(env, Touched(env)));
      b.Some? && b.value.factType == ft && Rests(env, b.value)
  {
    ProofKind(env, ft, kind, period);
    ProofBound(env, ft, kind, period);
    var p := env.prepared(ft).value;
    hide Touched, AuthoritiesOf, DependenciesOf, Sound, Unique, ProofOf, BindingOf;
    forall v | v in p.versions
      ensures (FactOf(env.facts, ft).value.id, v.sourceId) in DependenciesOf(env, Touched(env))
    {
      DependenciesHave(env, Touched(env), ft, v);
    }
  }

  /** The binding of a resolved proof. */
  lemma ProofBound(env: Env, ft: FactType, kind: Kind, period: bool)
    requires Sound(env) && ft in Touched(env) && ProofOf(env, ft, kind, period).resolved && !kind.OtherKind?
    ensures FactOf(env.facts, ft).Some? && env.prepared(ft).Some?
    ensures var f, p, proof := FactOf(env.facts, ft).value, env.prepared(ft).value, ProofOf(env, ft, kind, period);
      && proof.value.Some? && p.policy.Some? && NoRepeat(p.supporting)
      && (if kind.BooleanKind? then proof.value.value.Flag? else proof.value.value.Day?)
      && BindingOf(proof, ft, proof.value.value, AuthoritiesOf(env, Touched(env)))
         == Some(Binding(f.id, ft, f.revision, p.policy.value, p.supporting, Unique(p.evidence), proof.value.value))
  {
    ProofFacts(env, ft, kind, period);
    TouchedDistinct(env);
    AuthorityOnce(env, Touched(env), ft);
    UniqueIs(env.prepared(ft).value.evidence);
    hide Touched, AuthoritiesOf, Sound, Unique, ProofOf, Size;
  }

  /** A resolved proof comes from a resolution of its kind whose supporting versions are trusted. */
  lemma ProofKind(env: Env, ft: FactType, kind: Kind, period: bool)
    requires Sound(env) && ProofOf(env, ft, kind, period).resolved
    ensures FactOf(env.facts, ft).Some? && env.prepared(ft).Some? && FactOf(env.facts, ft).value.factType == ft
    ensures var p := env.prepared(ft).value;
      && p.resolved && p.value == Some((kind, ProofOf(env, ft, kind, period).value.value))
      && forall v :: v in p.versions && v.id in p.supporting ==> v.trusted
  {
    ProofFacts(env, ft, kind, period);
    FactFound(env.facts, ft);
    hide Sound, Unique;
    forall v | v in env.prepared(ft).value.versions && v.id in env.prepared(ft).value.supporting
      ensures v.trusted
    {
      assert v in Selected(env.prepared(ft).value);
    }
  }

  /** Every binding rests on something, is about a type of the list, and no two are about the same. */
  ghost predicate AllRest(env: Env, bs: seq<Binding>, types: seq<FactType>) {
    && (forall b :: b in bs ==> Rests(env, b) && b.factType in types)
    && TypesDiffer(bs)
  }

  lemma CandidateRests(env: Env, raid: Raid, ages: map<nat, int>, minimum: int)
    requires Sound(env) && Within(env, raid)
    ensures var c := Finish(Classify(env, raid), ages, minimum);
            var bs := BindCandidate(c, AuthoritiesOf(env, Touched(env)));
      bs.Some? && AllRest(env, bs.value, TypesOf(env, raid))
  {
    ClassifiedConsistent(env, raid);
    var c := Finish(Classify(env, raid), ages, minimum);
    var blocks, opens := BlocksDelivery(raid.id), OpenedAt(raid.id);
    assert blocks in TypesOf(env, raid);
    hide Sound, Touched, BindingOf, Rests, AllRest;
    if c.outcome !in SETTLED {
      NothingRests(env, TypesOf(env, raid));
    } else {
      ProofRests(env, blocks, BooleanKind, false);
      if c.outcome.Excluded? {
        hide Classify, ProofOf, TypesOf;
        OneRests(env, BindCandidate(c, AuthoritiesOf(env, Touched(env))).value, TypesOf(env, raid));
      } else {
        assert TypesOf(env, raid) == [blocks, opens];
        ProofRests(env, opens, DateKind, true);
        hide Classify, ProofOf, TypesOf;
        TwoRest(env, BindCandidate(c, AuthoritiesOf(env, Touched(env))).value, blocks, opens);
      }
    }
    hide Classify, ProofOf, TypesOf;
  }

  lemma NothingRests(env: Env, types: seq<FactType>)
    ensures AllRest(env, [], types)
  {
  }

  lemma OneRests(env: Env, bs: seq<Binding>, types: seq<FactType>)
    requires |bs| == 1 && Rests(env, bs[0]) && bs[0].factType in types
    ensures AllRest(env, bs, types)
  {
    hide Rests;
  }

  lemma TwoRest(env: Env, bs: seq<Binding>, a: FactType, b: FactType)
    requires |bs| == 2 && Rests(env, bs[0]) && Rests(env, bs[1]) && bs[0].factType == a && bs[1].factType == b && a != b
    ensures AllRest(env, bs, [a, b])
  {
    hide Rests;
  }

  lemma RestApart(env: Env, a: seq<Binding>, b: seq<Binding>, s: seq<FactType>, t: seq<FactType>)
    requires AllRest(env, a, s) && AllRest(env, b, t) && forall x :: x in s ==> x !in t
    ensures AllRest(env, a + b, s + t)
  {
    hide Rests;
    var c := a + b;
    forall i, j | 0 <= i < j < |c|
      ensures c[i].factType != c[j].factType
    {
      if i < |a| <= j {
        assert c[i] in a && c[j] in b;
      }
    }
  }

  lemma {:induction false} CandidatesRest(env: Env, ages: map<nat, int>, minimum: int, k: nat)
    requires Sound(env) && k <= |env.raids|
    ensures var cs := FinishAll(ClassifyAll(env, env.raids[..k]), ages, minimum);
            var bs := BindAll(cs, AuthoritiesOf(env, Touched(env)));
      bs.Some? && AllRest(env, bs.value, AllTypes(env, env.raids[..k]))
  {
    hide Finish, Classify, ProofOf, BindCandidate, TypesOf, Touched, AuthoritiesOf, Rests;
    if k > 0 {
      var raid, before := env.raids[k - 1], env.raids[..k - 1];
      CandidatesRest(env, ages, minimum, k - 1);
      WithinTypes(env, k - 1);
      CandidateRests(env, raid, ages, minimum);
      assert env.raids[..k] == before + [raid];
      ClassifySnoc(env, before, raid);
      var cs, last := FinishAll(ClassifyAll(env, before), ages, minimum), Finish(Classify(env, raid), ages, minimum);
      FinishSnoc(ClassifyAll(env, before), Classify(env, raid), ages, minimum);
      assert (cs + [last])[..|cs|] == cs;
      TypesApart(env, k - 1);
      var a, b := BindAll(cs, AuthoritiesOf(env, Touched(env))).value, BindCandidate(last, AuthoritiesOf(env, Touched(env))).value;
      assert BindAll(cs + [last], AuthoritiesOf(env, Touched(env))) == Some(a + b);
      hide Sound, BindAll, AllRest, AllTypes;
      RestApart(env, a, b, AllTypes(env, before), TypesOf(env, raid));
    }
  }

  lemma TypesApart(env: Env, k: nat)
    requires Sound(env) && k < |env.raids|
    ensures forall ft :: ft in AllTypes(env, env.raids[..k]) ==> ft !in TypesOf(env, env.raids[k])
  {
    forall ft | ft in AllTypes(env, env.raids[..k]) && ft in TypesOf(env, env.raids[k])
      ensures false
    {
      AllTypesOf(env, env.raids[..k], ft);
      TypesOfRaid(env, env.raids[k], ft);
    }
  }

  lemma InventoryRests(env: Env, strict: bool)
    requires Sound(env) && Reached(env) && Build(env, strict).Ok? && !Build(env, strict).value.coverage.Unassessable?
    ensures var b := Build(env, strict).value;
            var inventory := BindingOf(b.inventory, Inventory, Flag(true), b.authorities);
      inventory.Some? && AllRest(env, [inventory.value], [Inventory])
  {
    BuiltParts(env, strict);
    var b := Build(env, strict).value;
    hide Build, AllRest, Rests, AuthoritiesOf, BindingOf, ProofOf, Sound, FinishAll, ClassifyAll, Ages;
    assert Inventory in Touched(env);
    ProofRests(env, Inventory, BooleanKind, false);
    OneRests(env, [BindingOf(b.inventory, Inventory, Flag(true), b.authorities).value], [Inventory]);
  }

  lemma OthersRest(env: Env, strict: bool)
    requires Sound(env) && Reached(env) && Build(env, strict).Ok?
    ensures var b := Build(env, strict).value;
            var others := BindAll(b.candidates, b.authorities);
      others.Some? && AllRest(env, others.value, AllTypes(env, env.raids)) && Inventory !in AllTypes(env, env.raids)
  {
    BuiltParts(env, strict);
    hide Build, AllRest, Rests, AuthoritiesOf, BindAll, ProofOf, Sound, FinishAll, ClassifyAll, Ages, AllTypes;
    assert env.raids[..|env.raids|] == env.raids;
    CandidatesRest(env, Ages(env).value, env.threshold.value, |env.raids|);
    NoInventory(env);
  }

  lemma NoInventory(env: Env)
    requires Sound(env)
    ensures Inventory !in AllTypes(env, env.raids)
  {
    if Inventory in AllTypes(env, env.raids) {
      AllTypesOf(env, env.raids, Inventory);
    }
  }

  /** All proofs that the reader binds rest on what was prepared. */
  lemma ProofsRest(env: Env, strict: bool)
    requires Sound(env) && Reached(env) && Build(env, strict).Ok? && !Build(env, strict).value.coverage.Unassessable?
    ensures var b := Build(env, strict).value;
            var inventory, others := BindingOf(b.inventory, Inventory, Flag(true), b.authorities), BindAll(b.candidates, b.authorities);
      inventory.Some? && others.Some? && AllRest(env, [inventory.value] + others.value, Touched(env))
  {
    hide Build, Sound, Reached, AllRest, BindingOf, BindAll, AllTypes;
    InventoryRests(env, strict);
    OthersRest(env, strict);
    var b := Build(env, strict).value;
    RestApart(env, [BindingOf(b.inventory, Inventory, Flag(true), b.authorities).value], BindAll(b.candidates, b.authorities).value,
              [Inventory], AllTypes(env, env.raids));
  }

  lemma ObservedRests(env: Env, strict: bool, readable: bool)
    requires Sound(env) && Build(env, strict).Ok?
    requires Observe(Build(env, strict).value, env.threshold, env.asOf, readable) == Ok(Grounded(Proofs(env, strict, readable)))
    ensures AllRest(env, Proofs(env, strict, readable), Touched(env))
    ensures Build(env, strict).value.dependencies == DependenciesOf(env, Touched(env))
  {
    hide Build, Sound, AllRest, Rechecked, Parses, BindAll, BindingOf, VersionCount, DependenciesOf, Touched, Reached;
    CoveredIsReached(env, strict);
    ProofsRest(env, strict);
    BuiltParts(env, strict);
  }

  /** The proofs that the reader binds, if it gets so far. */
  function Proofs(env: Env, strict: bool, readable: bool): seq<Binding>
    requires Build(env, strict).Ok?
  {
    var seen := Observe(Build(env, strict).value, env.threshold, env.asOf, readable);
    if seen.Ok? && seen.value.Grounded? then seen.value.proofs else []
  }

  /** With the rows of the build still stored, the reader ends without an error exactly if no proof rests on two versions
      with the same evidence; stored evidence belongs to one version. */
  lemma ReaderAdvises(env: Env, strict: bool, readable: bool, t: Tables)
    requires Sound(env) && Build(env, strict).Ok? && !Build(env, strict).value.overLimit && StillStored(env, t)
    ensures Advise(Build(env, strict).value, env.threshold, env.asOf, readable, t).Ok?
      <==> forall b :: b in Proofs(env, strict, readable) ==> EvidenceOnce(t, b)
    ensures (forall i, j :: 0 <= i < j < |t.versions| ==> t.versions[i].evidenceId != t.versions[j].evidenceId)
      ==> Advise(Build(env, strict).value, env.threshold, env.asOf, readable, t).Ok?
  {
    hide Build, Sound, Observe, StillStored, RowsPass, EvidenceOnce, Rests, Touched, DependenciesOf;
    ReaderAccepts(env, strict, readable);
    var proofs := Proofs(env, strict, readable);
    if Observe(Build(env, strict).value, env.threshold, env.asOf, readable).value.Grounded? {
      ObservedRests(env, strict, readable);
      RowsPassIff(env, t, proofs);
    }
    if forall i, j :: 0 <= i < j < |t.versions| ==> t.versions[i].evidenceId != t.versions[j].evidenceId {
      forall b | b in proofs
        ensures EvidenceOnce(t, b)
      {
        EvidenceIsOnce(t, b);
      }
    }
  }

  lemma EvidenceIsOnce(t: Tables, b: Binding)
    requires forall i, j :: 0 <= i < j < |t.versions| ==> t.versions[i].evidenceId != t.versions[j].evidenceId
    ensures EvidenceOnce(t, b)
  {
    EvidenceKeyed(t.versions, b);
  }

  lemma {:induction false} EvidenceKeyed(vs: seq<VersionRow>, b: Binding)
    requires forall i, j :: 0 <= i < j < |vs| ==> vs[i].evidenceId != vs[j].evidenceId
    ensures NoRepeat(EvidenceIds(Tagged(b, VersionsFor(vs, b))))
  {
    if vs != [] {
      EvidenceKeyed(vs[1..], b);
      var rest := VersionsFor(vs[1..], b);
      forall k | 0 <= k < |rest|
        ensures rest[k].evidenceId != vs[0].evidenceId
      {
        VersionsForHave(vs[1..], b, rest[k]);
        var n :| 0 <= n < |vs| - 1 && vs[1..][n] == rest[k];
      }
      EvidenceRest(b, vs[0], rest);
    }
  }

  lemma EvidenceRest(b: Binding, v: VersionRow, rest: seq<VersionRow>)
    requires NoRepeat(EvidenceIds(Tagged(b, rest))) && forall k :: 0 <= k < |rest| ==> rest[k].evidenceId != v.evidenceId
    ensures NoRepeat(EvidenceIds(Tagged(b, [v] + rest)))
    ensures [] + rest == rest
  {
    assert EvidenceIds(Tagged(b, [v] + rest)) == [v.evidenceId] + EvidenceIds(Tagged(b, rest));
    forall x | x in EvidenceIds(Tagged(b, rest))
      ensures x != v.evidenceId
    {
    }
    NoRepeatFirst(v.evidenceId, EvidenceIds(Tagged(b, rest)));
  }
}
