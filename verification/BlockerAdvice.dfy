/** The advice reader's checks of what the builder produced, and why they always pass. */
module BlockerAdvice {
  import opened Wrappers
  import opened CalendarAge
  import opened BlockerAge

  datatype Binding = Binding(factId: nat, factType: FactType, factRevision: nat, policy: Policy, versionIds: seq<nat>,
                             evidenceIds: seq<nat>, expected: Raw)

  predicate NoRepeat(ids: seq<nat>) { forall i, j :: 0 <= i < j < |ids| ==> ids[i] != ids[j] }

  /** Binds a proof to the one revision of the one policy it rests on. */
  function BindingOf(p: Proof, t: FactType, expected: Raw, authorities: seq<Authority>): Option<Binding> {
    if !p.resolved || p.value != Some(expected) || p.factId.None? || p.versionIds == []
       || !NoRepeat(p.versionIds) || !NoRepeat(p.evidenceIds) then None
    else
      var matches := Filter((a: Authority) => a.factId == p.factId.value && a.factType == t, authorities);
      if |matches| != 1 || matches[0].factRevision < 1 || matches[0].policy.None?
         || matches[0].policy.value.throughRevision < 1 || matches[0].policy.value.eventRevision < 1 then None
      else Some(Binding(p.factId.value, t, matches[0].factRevision, matches[0].policy.value, p.versionIds, p.evidenceIds, expected))
  }

  const SETTLED := {Excluded, Aged, WithinThreshold}

  function BindCandidate(c: Candidate, authorities: seq<Authority>): Option<seq<Binding>> {
    if c.outcome !in SETTLED then Some([])
    else
      var classification := BindingOf(c.classification, BlocksDelivery(c.raid.id), Flag(!c.outcome.Excluded?), authorities);
      if classification.None? then None
      else if c.outcome.Excluded? then Some([classification.value])
      else if c.openedAt.None? || c.openedAt.value.value.None? then None
      else
        var date := BindingOf(c.openedAt.value, OpenedAt(c.raid.id), c.openedAt.value.value.value, authorities);
        if date.None? then None else Some([classification.value, date.value])
  }

  function BindAll(cs: seq<Candidate>, authorities: seq<Authority>): Option<seq<Binding>> {
    if cs == [] then Some([])
    else
      var n := |cs| - 1;
      var before, last := BindAll(cs[..n], authorities), BindCandidate(cs[n], authorities);
      if before.None? || last.None? then None else Some(before.value + last.value)
  }

  function VersionCount(bs: seq<Binding>): nat {
    if bs == [] then 0 else VersionCount(bs[..|bs| - 1]) + |bs[|bs| - 1].versionIds|
  }

  predicate ProofParses(p: Proof) { |p.versionIds| <= LIMIT && |p.evidenceIds| <= LIMIT }

  predicate CandidateParses(c: Candidate) {
    && ProofParses(c.classification) && (c.openedAt.Some? ==> ProofParses(c.openedAt.value))
    && !c.outcome.Pending? && (c.age.Some? ==> c.age.value >= 0)
  }

  /** The bounds of the reader's schema. */
  predicate Parses(b: Built) {
    && |b.candidates| <= MAX_RAIDS && |b.authorities| <= 2 * MAX_RAIDS + 1 && |b.dependencies| <= LIMIT
    && ThresholdValid(b.threshold) && ProofParses(b.inventory)
    && forall c :: c in b.candidates ==> CandidateParses(c)
  }

  predicate OpenedOn(c: Candidate) {
    c.openedAt.Some? && c.openedAt.value.resolved && c.openedAt.value.value.Some? && c.openedAt.value.value.value.Day?
  }

  /** An outcome is consistent with the proofs shown for it. */
  predicate Consistent(c: Candidate, asOf: Date) {
    match c.outcome
    case Excluded => c.classification.resolved && c.classification.value == Some(Flag(false)) && c.openedAt.None?
    case UnassessableOpenedAt =>
      && c.classification.resolved && c.classification.value == Some(Flag(true)) && c.openedAt.Some?
      && (!c.openedAt.value.resolved ==> c.openedAt.value.value.None?)
      && (OpenedOn(c) ==> Before(asOf, c.openedAt.value.value.value.d))
    case UnknownClassification =>
      && c.openedAt.None?
      && (if c.classification.resolved then c.classification.value.Some? ==> !c.classification.value.value.Flag?
          else c.classification.value.None?)
    case _ => c.classification.resolved && c.classification.value == Some(Flag(true)) && OpenedOn(c)
  }

  predicate AgeAgrees(c: Candidate, ages: map<nat, int>, minimum: int) {
    c.outcome in ASSESSED ==>
      && c.raid.key in ages
      && c.age == Some(ages[c.raid.key])
      && c.exceeded == Some(ages[c.raid.key] >= minimum)
      && c.outcome == (if ages[c.raid.key] >= minimum then Aged else WithinThreshold)
  }

  predicate RaidsOrdered(cs: seq<Candidate>) {
    && (forall i :: 0 < i < |cs| ==> cs[i - 1].raid.id < cs[i].raid.id)
    && (forall i, j :: 0 <= i < j < |cs| ==> cs[i].raid.id != cs[j].raid.id && cs[i].raid.key != cs[j].raid.key)
  }

  predicate GatesOpen(b: Built, threshold: Option<int>) {
    b.gates == Gates(true, true, true, true, true) && b.threshold == threshold && threshold.Some?
  }

  /** Everything else checked before proofs are bound. */
  predicate Rechecked(b: Built, minimum: int, asOf: Date) {
    && b.candidateCount == |b.candidates|
    && RaidsOrdered(b.candidates)
    && b.inventory.resolved && b.inventory.value == Some(Flag(true))
    && (b.coverage.Complete? ==> Count(b.candidates, UNKNOWN) == 0)
    && (b.coverage.Partial? ==> Count(b.candidates, UNKNOWN) > 0 && Count(b.candidates, ASSESSED) > 0)
    && (forall c :: c in b.candidates ==> Consistent(c, asOf))
    && var ages := Evaluate(asOf, minimum, Blockers(b.candidates, ASSESSED));
    && ages.Ok?
    && (forall c :: c in b.candidates ==> AgeAgrees(c, ages.value, minimum))
    && (b.coverage.Partial? ==> b.noOpenBlockers.None?)
    && (b.coverage.Complete? ==> b.noOpenBlockers == Some(Count(b.candidates, ASSESSED) == 0))
  }

  datatype Advice = NotAvailable | Grounded(proofs: seq<Binding>)

  /** What the reader makes of the builder's output, up to reading the bound rows. */
  function Observe(b: Built, threshold: Option<int>, asOf: Date, readable: bool): Result<Advice, Error> {
    if b.overLimit then Err(Unavailable)
    else if b.coverage.Unassessable? || b.newConflicts != {} then Ok(NotAvailable)
    else if !Parses(b) || !GatesOpen(b, threshold) then Err(Unavailable)
    else if !readable then Ok(NotAvailable)
    else if !Rechecked(b, threshold.value, asOf) then Err(Unavailable)
    else
      var inventory := BindingOf(b.inventory, Inventory, Flag(true), b.authorities);
      var others := BindAll(b.candidates, b.authorities);
      if inventory.None? || others.None? then Err(Unavailable)
      else
        var proofs := [inventory.value] + others.value;
        if VersionCount(proofs) > LIMIT then Err(Unavailable) else Ok(Grounded(proofs))
  }

  // ---------- what is assumed of the stored rows and the resolver ----------

  ghost predicate ResolverSound(p: Prepared) {
    && NoRepeat(p.supporting)
    && |p.evidence| <= |p.supporting|
    && (p.resolved ==> p.policy.Some? && p.policy.value.throughRevision >= 1 && p.policy.value.eventRevision >= 1)
    && (p.value.Some? && p.value.value.0.BooleanKind? ==> p.value.value.1.Flag?)
    && (p.value.Some? && p.value.value.0.DateKind? ==> p.value.value.1.Day? && IsDate(p.value.value.1.d))
  }

  /** How many versions of a fact are loaded. */
  function Size(env: Env, t: FactType): nat {
    if FactOf(env.facts, t).Some? && env.prepared(t).Some? then |env.prepared(t).value.versions| else 0
  }

  function HistorySize(env: Env, facts: seq<Fact>): nat {
    if facts == [] then 0 else Size(env, facts[0].factType) + HistorySize(env, facts[1..])
  }

  /** The rows are keyed and ordered, the loaded history is within its limit, and the resolver keeps its contract. */
  ghost predicate Sound(env: Env) {
    && (forall i :: 0 < i < |env.raids| ==> env.raids[i - 1].id < env.raids[i].id)
    && (forall i, j :: 0 <= i < j < |env.raids| ==> env.raids[i].id < env.raids[j].id && env.raids[i].key != env.raids[j].key)
    && (forall i, j :: 0 <= i < j < |env.facts| ==> env.facts[i].id != env.facts[j].id && env.facts[i].factType != env.facts[j].factType)
    && (forall f :: f in env.facts ==> f.revision >= 1)
    && IsDate(env.asOf)
    && (env.historyFits ==> HistorySize(env, env.facts) <= LIMIT)
    && (forall t :: env.prepared(t).Some? ==> ResolverSound(env.prepared(t).value))
  }

  // ---------- counts and coverage ----------

  lemma {:induction false} CountsAdd(cs: seq<Candidate>)
    ensures |cs| == Count(cs, {Excluded}) + Count(cs, UNKNOWN) + Count(cs, ASSESSED) + Count(cs, {Pending})
  {
    if cs == [] {
      assert Count(cs, UNKNOWN) == 0 && Count(cs, ASSESSED) == 0;
    } else {
      CountsAdd(cs[1..]);
      var o := cs[0].outcome;
      assert o in UNKNOWN || o in ASSESSED || o == Excluded || o == Pending;
    }
  }

  lemma {:induction false} CountZero(cs: seq<Candidate>, wanted: set<Outcome>)
    ensures Count(cs, wanted) == 0 <==> forall c :: c in cs ==> c.outcome !in wanted
  {
    if cs != [] {
      CountZero(cs[1..], wanted);
      assert forall c :: c in cs <==> c == cs[0] || c in cs[1..];
    }
  }

  lemma {:induction false} FinishCounts(cs: seq<Candidate>, ages: map<nat, int>, minimum: int)
    requires forall c :: c in cs ==> c.outcome !in ASSESSED && (c.outcome.Pending? ==> c.raid.key in ages)
    ensures var done := FinishAll(cs, ages, minimum);
      && |done| == |cs|
      && Count(done, UNKNOWN) == Count(cs, UNKNOWN)
      && Count(done, {Excluded}) == Count(cs, {Excluded})
      && Count(done, ASSESSED) == Count(cs, {Pending})
      && Count(done, {Pending}) == 0
  {
    if cs != [] {
      FinishCounts(cs[1..], ages, minimum);
    }
  }

  lemma {:induction false} ClassifiedShape(env: Env, raids: seq<Raid>, i: nat)
    requires i < |raids|
    ensures |ClassifyAll(env, raids)| == |raids| && ClassifyAll(env, raids)[i] == Classify(env, raids[i])
  {
    hide Classify;
    if i > 0 {
      ClassifiedShape(env, raids[1..], i - 1);
    } else if |raids| > 1 {
      ClassifiedShape(env, raids[1..], 0);
    }
  }

  lemma ClassifyOutcome(env: Env, raid: Raid)
    ensures var c := Classify(env, raid); c.outcome !in ASSESSED && c.raid == raid && c.age.None? && c.exceeded.None?
  {
    hide ProofOf;
  }

  function KeysOf(bs: seq<(nat, Date)>): set<nat> { set i | 0 <= i < |bs| :: bs[i].0 }

  lemma {:induction false} EvaluateKeys(asOf: Date, minimum: int, bs: seq<(nat, Date)>)
    requires Evaluate(asOf, minimum, bs).Ok?
    ensures |Evaluate(asOf, minimum, bs).value| == |bs| && Evaluate(asOf, minimum, bs).value.Keys == KeysOf(bs)
  {
    if bs != [] {
      var n := |bs| - 1;
      EvaluateKeys(asOf, minimum, bs[..n]);
      assert KeysOf(bs) == KeysOf(bs[..n]) + {bs[n].0} by {
        assert forall i :: 0 <= i < n ==> bs[..n][i] == bs[i];
        assert forall i :: 0 <= i < n ==> bs[i].0 in KeysOf(bs[..n]);
      }
    }
  }

  /** A successful evaluation gives every blocker the number of days since its date. */
  lemma {:induction false} EvaluateAt(asOf: Date, minimum: int, bs: seq<(nat, Date)>, i: nat)
    requires Evaluate(asOf, minimum, bs).Ok? && i < |bs|
    ensures var ages := Evaluate(asOf, minimum, bs).value;
      && IsDate(bs[i].1) && !Before(asOf, bs[i].1) && bs[i].0 in ages
      && ages[bs[i].0] >= 0 && DaysAfter(bs[i].1, ages[bs[i].0]) == asOf
  {
    var n := |bs| - 1;
    if i < n {
      assert bs[..n][i] == bs[i];
      EvaluateAt(asOf, minimum, bs[..n], i);
    } else {
      AgeIsDays(bs[n].1, asOf);
    }
    hide DayOrdinal, DaysAfter, IsDate, Before;
  }

  lemma {:induction false} BlockersHave(cs: seq<Candidate>, wanted: set<Outcome>, c: Candidate)
    requires c in cs && c.outcome in wanted
    ensures exists i :: 0 <= i < |Blockers(cs, wanted)| && Blockers(cs, wanted)[i] == (c.raid.key, DateOf(c))
  {
    var n := |cs| - 1;
    if c == cs[n] {
      var all := Blockers(cs, wanted);
      assert all[|all| - 1] == (c.raid.key, DateOf(c));
    } else {
      BlockersHave(cs[..n], wanted, c);
      var i :| 0 <= i < |Blockers(cs[..n], wanted)| && Blockers(cs[..n], wanted)[i] == (c.raid.key, DateOf(c));
      assert Blockers(cs, wanted)[i] == (c.raid.key, DateOf(c));
    }
  }

  lemma {:induction false} BlockersCount(cs: seq<Candidate>, wanted: set<Outcome>)
    ensures |Blockers(cs, wanted)| == Count(cs, wanted)
  {
    if cs != [] {
      var n := |cs| - 1;
      BlockersCount(cs[..n], wanted);
      CountSnoc(cs[..n], cs[n], wanted);
      assert cs == cs[..n] + [cs[n]];
    }
  }

  // ---------- the size of the history bounds everything ----------

  function TypesSize(env: Env, types: seq<FactType>): nat {
    if types == [] then 0 else Size(env, types[0]) + TypesSize(env, types[1..])
  }

  lemma {:induction false} TypesSizeAppend(env: Env, a: seq<FactType>, b: seq<FactType>)
    ensures TypesSize(env, a + b) == TypesSize(env, a) + TypesSize(env, b)
  {
    if a == [] {
      assert a + b == b;
    } else {
      assert (a + b)[1..] == a[1..] + b;
      TypesSizeAppend(env, a[1..], b);
    }
  }

  lemma TypesSizeAround(env: Env, a: seq<FactType>, t: FactType, b: seq<FactType>)
    ensures TypesSize(env, a + [t] + b) == TypesSize(env, a + b) + Size(env, t)
  {
    TypesSizeAppend(env, a + [t], b);
    TypesSizeAppend(env, a, [t]);
    TypesSizeAppend(env, a, b);
    assert [t][1..] == [];
    assert TypesSize(env, [t]) == Size(env, t);
  }

  ghost predicate Covers(env: Env, facts: seq<Fact>, types: seq<FactType>) {
    forall t :: t in types && Size(env, t) > 0 ==> exists f :: f in facts && f.factType == t
  }

  lemma {:induction false} NoSize(env: Env, types: seq<FactType>)
    requires Covers(env, [], types)
    ensures TypesSize(env, types) == 0
  {
    if types != [] {
      NoSize(env, types[1..]);
      assert types[0] in types;
    }
  }

  lemma DistinctAround<T>(a: seq<T>, x: T, b: seq<T>)
    requires Distinct(a + [x] + b)
    ensures Distinct(a + b) && x !in a + b
  {
    var all, rest := a + [x] + b, a + b;
    assert forall i :: 0 <= i < |rest| ==> rest[i] == all[if i < |a| then i else i + 1];
    assert all[|a|] == x;
  }

  /** Distinct facts have no more versions between them than there are in the history. */
  lemma {:induction false} DistinctSize(env: Env, types: seq<FactType>, facts: seq<Fact>)
    requires Distinct(types) && Covers(env, facts, types)
    ensures TypesSize(env, types) <= HistorySize(env, facts)
    decreases |facts|
  {
    if facts == [] {
      NoSize(env, types);
    } else {
      var t := facts[0].factType;
      if t in types {
        var k :| 0 <= k < |types| && types[k] == t;
        var a, b := types[..k], types[k + 1..];
        assert types == a + [t] + b;
        TypesSizeAround(env, a, t, b);
        DistinctAround(a, t, b);
        assert forall u :: u in a + b ==> u in types;
        CoversRest(env, facts, a + b);
        DistinctSize(env, a + b, facts[1..]);
      } else {
        CoversRest(env, facts, types);
        DistinctSize(env, types, facts[1..]);
      }
    }
  }

  lemma CoversRest(env: Env, facts: seq<Fact>, types: seq<FactType>)
    requires facts != [] && facts[0].factType !in types && Covers(env, facts, types)
    ensures Covers(env, facts[1..], types)
  {
    hide Size;
    forall t | t in types && Size(env, t) > 0
      ensures exists f :: f in facts[1..] && f.factType == t
    {
      var f :| f in facts && f.factType == t;
      assert f in facts[1..];
    }
  }

  lemma {:induction false} FactFound(facts: seq<Fact>, t: FactType)
    ensures FactOf(facts, t).Some? ==> FactOf(facts, t).value in facts && FactOf(facts, t).value.factType == t
  {
    if facts != [] {
      FactFound(facts[1..], t);
    }
  }

  lemma TypesOfRaid(env: Env, raid: Raid, t: FactType)
    requires t in TypesOf(env, raid)
    ensures t == BlocksDelivery(raid.id) || t == OpenedAt(raid.id)
  {
    hide ProofOf;
  }

  lemma {:induction false} AllTypesOf(env: Env, raids: seq<Raid>, t: FactType)
    requires t in AllTypes(env, raids)
    ensures exists r :: r in raids && (t == BlocksDelivery(r.id) || t == OpenedAt(r.id))
  {
    hide TypesOf;
    if t in TypesOf(env, raids[0]) {
      TypesOfRaid(env, raids[0], t);
    } else {
      AllTypesOf(env, raids[1..], t);
    }
  }

  lemma TypesOfDistinct(env: Env, raid: Raid)
    ensures Distinct(TypesOf(env, raid)) && 1 <= |TypesOf(env, raid)| <= 2
  {
    hide ProofOf;
  }

  lemma {:induction false} AllTypesDistinct(env: Env, raids: seq<Raid>)
    requires forall i, j :: 0 <= i < j < |raids| ==> raids[i].id != raids[j].id
    ensures Distinct(AllTypes(env, raids)) && |AllTypes(env, raids)| <= 2 * |raids|
  {
    if raids != [] {
      AllTypesDistinct(env, raids[1..]);
      TypesOfDistinct(env, raids[0]);
      var here, later := TypesOf(env, raids[0]), AllTypes(env, raids[1..]);
      hide TypesOf;
      forall t | t in here && t in later
        ensures false
      {
        TypesOfRaid(env, raids[0], t);
        AllTypesOf(env, raids[1..], t);
      }
      DistinctAppend(here, later);
    }
  }

  lemma DistinctAppend<T>(a: seq<T>, b: seq<T>)
    requires Distinct(a) && Distinct(b) && forall x :: x in a ==> x !in b
    ensures Distinct(a + b)
  {
    var c := a + b;
    forall i, j | 0 <= i < j < |c|
      ensures c[i] != c[j]
    {
      if i < |a| <= j {
        assert a[i] in a && b[j - |a|] in b;
      }
    }
  }

  lemma TouchedDistinct(env: Env)
    requires Sound(env)
    ensures Distinct(Touched(env)) && |Touched(env)| <= 2 * |env.raids| + 1
  {
    AllTypesDistinct(env, env.raids);
    if Inventory in AllTypes(env, env.raids) {
      AllTypesOf(env, env.raids, Inventory);
    }
    DistinctAppend([Inventory], AllTypes(env, env.raids));
  }

  /** What is touched stays within the loaded history. */
  lemma TouchedSize(env: Env)
    requires Sound(env) && env.historyFits
    ensures TypesSize(env, Touched(env)) <= LIMIT
  {
    TouchedDistinct(env);
    forall t | t in Touched(env) && Size(env, t) > 0
      ensures exists f :: f in env.facts && f.factType == t
    {
      FactFound(env.facts, t);
    }
    DistinctSize(env, Touched(env), env.facts);
  }

  lemma {:induction false} SizeAt(env: Env, types: seq<FactType>, t: FactType)
    requires t in types
    ensures Size(env, t) <= TypesSize(env, types)
  {
    if t != types[0] {
      SizeAt(env, types[1..], t);
    }
  }

  function SourcePairs(factId: nat, vs: seq<Version>): set<(nat, nat)> { set v | v in vs :: (factId, v.sourceId) }

  lemma {:induction false} SourcePairsBound(factId: nat, vs: seq<Version>)
    ensures |SourcePairs(factId, vs)| <= |vs|
  {
    if vs != [] {
      SourcePairsBound(factId, vs[1..]);
      assert SourcePairs(factId, vs) == {(factId, vs[0].sourceId)} + SourcePairs(factId, vs[1..]) by {
        assert forall v :: v in vs <==> v == vs[0] || v in vs[1..];
      }
    }
  }

  lemma {:induction false} DependenciesBound(env: Env, types: seq<FactType>)
    ensures |DependenciesOf(env, types)| <= TypesSize(env, types)
    ensures |AuthoritiesOf(env, types)| <= |types|
  {
    if types != [] {
      DependenciesBound(env, types[1..]);
      var f, p := FactOf(env.facts, types[0]), env.prepared(types[0]);
      if f.Some? && p.Some? {
        SourcePairsBound(f.value.id, p.value.versions);
        assert DependenciesOf(env, types) == SourcePairs(f.value.id, p.value.versions) + DependenciesOf(env, types[1..]);
      } else {
        assert DependenciesOf(env, types) == DependenciesOf(env, types[1..]);
      }
    }
  }
}
