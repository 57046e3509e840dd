/** What holds of everything the blocker-age builder produces. */
module BlockerTheorems {
  import opened Wrappers
  import opened CalendarAge
  import opened BlockerAge
  import opened BlockerAdvice

  // ---------- authorities and bindings ----------

  lemma {:induction false} AuthoritiesNone(env: Env, types: seq<FactType>, t: FactType, factId: nat)
    requires t !in types
    ensures Filter((a: Authority) => a.factId == factId && a.factType == t, AuthoritiesOf(env, types)) == []
  {
    if types != [] {
      AuthoritiesNone(env, types[1..], t, factId);
      var here := AuthorityOf(env, types[0]);
      FilterAppend((a: Authority) => a.factId == factId && a.factType == t, here, AuthoritiesOf(env, types[1..]));
      FilterAll((a: Authority) => a.factId == factId && a.factType == t, here);
    }
  }

  /** Each touched fact is bound by exactly one authority. */
  lemma {:induction false} AuthorityOnce(env: Env, types: seq<FactType>, t: FactType)
    requires Distinct(types) && t in types && FactOf(env.facts, t).Some? && env.prepared(t).Some?
    ensures var f := FactOf(env.facts, t).value;
      Filter((a: Authority) => a.factId == f.id && a.factType == t, AuthoritiesOf(env, types))
      == [Authority(f.id, t, f.revision, env.prepared(t).value.policy)]
  {
    var f := FactOf(env.facts, t).value;
    var keep := (a: Authority) => a.factId == f.id && a.factType == t;
    var here, later := AuthorityOf(env, types[0]), AuthoritiesOf(env, types[1..]);
    FilterAppend(keep, here, later);
    FilterAll(keep, here);
    if types[0] == t {
      AuthoritiesNone(env, types[1..], t, f.id);
    } else {
      AuthorityOnce(env, types[1..], t);
    }
  }

  lemma {:induction false} UniqueIs(ids: seq<nat>)
    ensures NoRepeat(Unique(ids)) && |Unique(ids)| <= |ids|
    ensures forall id :: id in Unique(ids) <==> id in ids
  {
    if ids != [] {
      UniqueIs(ids[1..]);
      assert forall id :: id in ids <==> id == ids[0] || id in ids[1..];
    }
  }

  /** What a resolved proof says of the fact it comes from. */
  lemma ProofFacts(env: Env, t: FactType, kind: Kind, period: bool)
    requires Sound(env) && ProofOf(env, t, kind, period).resolved
    ensures FactOf(env.facts, t).Some? && env.prepared(t).Some?
    ensures var p, f := env.prepared(t).value, FactOf(env.facts, t).value;
            var proof := ProofOf(env, t, kind, period);
      && f.revision >= 1 && p.policy.Some? && p.policy.value.throughRevision >= 1 && p.policy.value.eventRevision >= 1
      && proof.value.Some? && proof.factId == Some(f.id) && proof.versionIds == p.supporting != []
      && proof.evidenceIds == Unique(p.evidence) && NoRepeat(p.supporting)
      && |proof.versionIds| <= Size(env, t) && |proof.evidenceIds| <= Size(env, t)
      && (kind.BooleanKind? ==> proof.value.value.Flag?)
      && (kind.DateKind? ==> proof.value.value.Day? && IsDate(proof.value.value.d))
  {
    var p := env.prepared(t).value;
    FactFound(env.facts, t);
    assert ResolverSound(p);
    FilterLength((v: Version) => v.id in p.supporting, p.versions);
    UniqueIs(p.evidence);
  }

  /** Every resolved proof of a touched fact can be bound. */
  lemma ProofBinds(env: Env, t: FactType, kind: Kind, period: bool)
    requires Sound(env) && t in Touched(env) && ProofOf(env, t, kind, period).resolved
    ensures var proof := ProofOf(env, t, kind, period);
      proof.value.Some? &&
      var b := BindingOf(proof, t, proof.value.value, AuthoritiesOf(env, Touched(env)));
      b.Some? && b.value.factType == t && |b.value.versionIds| <= Size(env, t)
  {
    ProofFacts(env, t, kind, period);
    TouchedDistinct(env);
    AuthorityOnce(env, Touched(env), t);
    UniqueIs(env.prepared(t).value.evidence);
    hide Touched, AuthoritiesOf, ProofOf, Sound, Unique, Size;
  }

  /** A proof that is not resolved shows nothing. */
  lemma UnresolvedShowsNothing(env: Env, t: FactType, kind: Kind, period: bool)
    requires !ProofOf(env, t, kind, period).resolved
    ensures var p := ProofOf(env, t, kind, period); p.value.None? && p.versionIds == [] && p.evidenceIds == []
  {
    hide Trusted;
  }

  // ---------- one candidate ----------

  lemma ProofBounded(env: Env, t: FactType, kind: Kind, period: bool)
    requires Sound(env) && t in Touched(env) && env.historyFits
    ensures ProofParses(ProofOf(env, t, kind, period))
  {
    var p := ProofOf(env, t, kind, period);
    if p.resolved {
      ProofFacts(env, t, kind, period);
      TouchedSize(env);
      SizeAt(env, Touched(env), t);
    } else {
      UnresolvedShowsNothing(env, t, kind, period);
    }
    hide ProofOf, Sound, Touched;
  }

  ghost predicate Within(env: Env, raid: Raid) { forall t :: t in TypesOf(env, raid) ==> t in Touched(env) }

  lemma WithinTypes(env: Env, k: nat)
    requires k < |env.raids|
    ensures Within(env, env.raids[k])
  {
    TypesPrefix(env, env.raids, k);
    hide AllTypes, TypesOf;
  }

  /** The shape of a classified candidate. */
  lemma ClassifiedConsistent(env: Env, raid: Raid)
    ensures var c := Classify(env, raid);
      && c.raid == raid && c.outcome !in ASSESSED
      && c.classification == ProofOf(env, BlocksDelivery(raid.id), BooleanKind, false)
      && (c.openedAt.Some? <==> Blocking(c.classification))
      && (c.openedAt.Some? ==> c.openedAt.value == ProofOf(env, OpenedAt(raid.id), DateKind, true))
      && (!c.outcome.Pending? ==> Consistent(c, env.asOf))
      && (c.outcome.Pending? ==> OpenedOn(c) && Blocking(c.classification))
      && (c.outcome.Excluded? <==> c.classification.resolved && c.classification.value == Some(Flag(false)))
  {
    UnresolvedCases(env, raid);
    hide ProofOf;
  }

  lemma UnresolvedCases(env: Env, raid: Raid)
    ensures var p := ProofOf(env, BlocksDelivery(raid.id), BooleanKind, false); !p.resolved ==> p.value.None?
    ensures var p := ProofOf(env, OpenedAt(raid.id), DateKind, true); !p.resolved ==> p.value.None?
  {
    hide Trusted;
  }

  /** The ages cover the pending candidates of a list. */
  ghost predicate Aging(cs: seq<Candidate>, ages: map<nat, int>) {
    forall c :: c in cs && c.outcome.Pending? ==> c.raid.key in ages && ages[c.raid.key] >= 0
  }

  lemma FinishedConsistent(env: Env, raid: Raid, ages: map<nat, int>, minimum: int)
    requires Sound(env) && env.historyFits && Within(env, raid)
    requires var c := Classify(env, raid); c.outcome.Pending? ==> c.raid.key in ages && ages[c.raid.key] >= 0
    ensures var c := Finish(Classify(env, raid), ages, minimum);
      Consistent(c, env.asOf) && AgeAgrees(c, ages, minimum) && CandidateParses(c) && c.raid == raid
  {
    ClassifiedConsistent(env, raid);
    ClassifyOutcome(env, raid);
    var c := Classify(env, raid);
    assert BlocksDelivery(raid.id) in TypesOf(env, raid);
    ProofBounded(env, BlocksDelivery(raid.id), BooleanKind, false);
    if c.openedAt.Some? {
      assert OpenedAt(raid.id) in TypesOf(env, raid);
      ProofBounded(env, OpenedAt(raid.id), DateKind, true);
    }
    hide Classify, ProofOf, Sound, Touched, TypesOf, ProofParses;
  }

  /** The proofs of a settled candidate can be bound, within the size of its facts. */
  lemma CandidateBinds(env: Env, raid: Raid, ages: map<nat, int>, minimum: int)
    requires Sound(env) && Within(env, raid)
    ensures var c := Finish(Classify(env, raid), ages, minimum);
            var bs := BindCandidate(c, AuthoritiesOf(env, Touched(env)));
      bs.Some? && VersionCount(bs.value) <= TypesSize(env, TypesOf(env, raid))
  {
    ClassifiedConsistent(env, raid);
    var c := Finish(Classify(env, raid), ages, minimum);
    var blocks, opens := BlocksDelivery(raid.id), OpenedAt(raid.id);
    assert blocks in TypesOf(env, raid);
    if c.outcome in SETTLED {
      ProofBinds(env, blocks, BooleanKind, false);
      if c.outcome.Excluded? {
        CountOne(BindCandidate(c, AuthoritiesOf(env, Touched(env))).value);
        SizeAt(env, TypesOf(env, raid), blocks);
      } else {
        assert TypesOf(env, raid) == [blocks, opens];
        ProofBinds(env, opens, DateKind, true);
        TwoTypes(env, blocks, opens);
        CountTwo(BindCandidate(c, AuthoritiesOf(env, Touched(env))).value);
      }
    }
    hide Classify, ProofOf, Sound, Touched, TypesOf, BindingOf, Size, TypesSize;
  }

  lemma TwoTypes(env: Env, a: FactType, b: FactType)
    ensures TypesSize(env, [a, b]) == Size(env, a) + Size(env, b)
  {
    assert [a, b][1..] == [b] && [b][1..] == [];
    assert TypesSize(env, [b]) == Size(env, b);
  }

  lemma CountOne(bs: seq<Binding>)
    requires |bs| == 1
    ensures VersionCount(bs) == |bs[0].versionIds|
  {
    assert bs[..0] == [];
  }

  lemma CountTwo(bs: seq<Binding>)
    requires |bs| == 2
    ensures VersionCount(bs) == |bs[0].versionIds| + |bs[1].versionIds|
  {
    CountOne(bs[..1]);
  }

  lemma {:induction false} VersionCountAppend(a: seq<Binding>, b: seq<Binding>)
    ensures VersionCount(a + b) == VersionCount(a) + VersionCount(b)
  {
    if b == [] {
      assert a + b == a;
    } else {
      var n := |b| - 1;
      assert (a + b)[..|a| + n] == a + b[..n];
      VersionCountAppend(a, b[..n]);
    }
  }

  // ---------- all candidates ----------

  lemma {:induction false} FinishSnoc(cs: seq<Candidate>, c: Candidate, ages: map<nat, int>, minimum: int)
    ensures FinishAll(cs + [c], ages, minimum) == FinishAll(cs, ages, minimum) + [Finish(c, ages, minimum)]
  {
    hide Finish;
    if cs == [] {
      assert cs + [c] == [c];
    } else {
      assert (cs + [c])[1..] == cs[1..] + [c];
      FinishSnoc(cs[1..], c, ages, minimum);
    }
  }

  lemma {:induction false} AllBind(env: Env, ages: map<nat, int>, minimum: int, k: nat)
    requires Sound(env) && k <= |env.raids|
    ensures var cs := FinishAll(ClassifyAll(env, env.raids[..k]), ages, minimum);
            var bs := BindAll(cs, AuthoritiesOf(env, Touched(env)));
      bs.Some? && VersionCount(bs.value) <= TypesSize(env, AllTypes(env, env.raids[..k]))
  {
    hide Finish, Classify, ProofOf, BindCandidate, TypesOf, Touched, AuthoritiesOf;
    if k > 0 {
      var raid, before := env.raids[k - 1], env.raids[..k - 1];
      AllBind(env, ages, minimum, k - 1);
      WithinTypes(env, k - 1);
      CandidateBinds(env, raid, ages, minimum);
      assert env.raids[..k] == before + [raid];
      ClassifySnoc(env, before, raid);
      TypesSizeAppend(env, AllTypes(env, before), TypesOf(env, raid));
      hide Sound, Size;
      var cs, last := FinishAll(ClassifyAll(env, before), ages, minimum), Finish(Classify(env, raid), ages, minimum);
      FinishSnoc(ClassifyAll(env, before), Classify(env, raid), ages, minimum);
      assert (cs + [last])[..|cs|] == cs;
      var a, b := BindAll(cs, AuthoritiesOf(env, Touched(env))).value, BindCandidate(last, AuthoritiesOf(env, Touched(env))).value;
      assert BindAll(cs + [last], AuthoritiesOf(env, Touched(env))) == Some(a + b);
      hide BindAll, VersionCount, TypesSize, AllTypes, ClassifyAll, FinishAll;
      VersionCountAppend(a, b);
    }
  }

  lemma FinishedAt(env: Env, ages: map<nat, int>, minimum: int, k: nat)
    requires k < |env.raids|
    ensures var cs := FinishAll(ClassifyAll(env, env.raids), ages, minimum);
      |cs| == |env.raids| && cs[k] == Finish(Classify(env, env.raids[k]), ages, minimum)
  {
    ClassifiedShape(env, env.raids, k);
    FinishEach(ClassifyAll(env, env.raids), ages, minimum);
    hide Classify, Finish;
  }

  lemma {:induction false} SameBlockers(cs: seq<Candidate>, ages: map<nat, int>, minimum: int)
    requires Aging(cs, ages) && forall c :: c in cs ==> c.outcome !in ASSESSED
    ensures Blockers(FinishAll(cs, ages, minimum), ASSESSED) == Blockers(cs, {Pending})
  {
    if cs != [] {
      var before, c := cs[..|cs| - 1], cs[|cs| - 1];
      assert cs == before + [c];
      SameBlockers(before, ages, minimum);
      FinishSnoc(before, c, ages, minimum);
      BlockersSnoc(before, c, {Pending});
      BlockersSnoc(FinishAll(before, ages, minimum), Finish(c, ages, minimum), ASSESSED);
    }
  }

  /** The ages of a successful evaluation cover everything that is pending. */
  lemma EvaluatedAges(cs: seq<Candidate>, asOf: Date, minimum: int)
    requires Evaluate(asOf, minimum, Blockers(cs, {Pending})).Ok?
    ensures Aging(cs, Evaluate(asOf, minimum, Blockers(cs, {Pending})).value)
    ensures |Evaluate(asOf, minimum, Blockers(cs, {Pending})).value| == Count(cs, {Pending})
  {
    var bs := Blockers(cs, {Pending});
    EvaluateKeys(asOf, minimum, bs);
    BlockersCount(cs, {Pending});
    forall c | c in cs && c.outcome.Pending?
      ensures c.raid.key in Evaluate(asOf, minimum, bs).value && Evaluate(asOf, minimum, bs).value[c.raid.key] >= 0
    {
      BlockersHave(cs, {Pending}, c);
      var i :| 0 <= i < |bs| && bs[i] == (c.raid.key, DateOf(c));
      EvaluateAt(asOf, minimum, bs, i);
    }
  }

  lemma NoneAssessed(env: Env, raids: seq<Raid>)
    ensures forall c :: c in ClassifyAll(env, raids) ==> c.outcome !in ASSESSED
  {
    hide Classify;
    forall c | c in ClassifyAll(env, raids)
      ensures c.outcome !in ASSESSED
    {
      if raids != [] { ClassifiedShape(env, raids, 0); }
      var i :| 0 <= i < |ClassifyAll(env, raids)| && ClassifyAll(env, raids)[i] == c;
      ClassifiedShape(env, raids, i);
      ClassifyOutcome(env, raids[i]);
    }
  }

  /** The builder got as far as classifying the open items. */
  predicate Reached(env: Env) {
    env.canonicalSealed && ThresholdValid(env.threshold) && |env.raids| <= MAX_RAIDS && env.historyFits
  }

  function Ages(env: Env): Result<map<nat, int>, Error>
    requires env.threshold.Some?
  {
    Evaluate(env.asOf, env.threshold.value, Blockers(ClassifyAll(env, env.raids), {Pending}))
  }

  /** The parts of what is built, in terms of the classified items and their ages. */
  lemma BuiltParts(env: Env, strict: bool)
    requires Reached(env) && Build(env, strict).Ok?
    ensures Ages(env).Ok?
    ensures var b, ages, cs := Build(env, strict).value, Ages(env).value, ClassifyAll(env, env.raids);
      && b.candidates == FinishAll(cs, ages, env.threshold.value)
      && b.gates == Gates(true, true, Blocking(b.inventory), true, true) && !b.overLimit && b.threshold == env.threshold
      && b.inventory == ProofOf(env, Inventory, BooleanKind, false)
      && b.authorities == AuthoritiesOf(env, Touched(env)) && b.dependencies == DependenciesOf(env, Touched(env))
      && b.candidateCount == |env.raids| == |b.candidates|
      && b.unknown == Count(b.candidates, UNKNOWN) && b.assessed == Count(b.candidates, ASSESSED)
      && b.coverage == CoverageOf(Blocking(b.inventory), b.unknown, b.assessed)
      && b.noOpenBlockers == (if b.coverage.Complete? then Some(b.assessed == 0) else None)
      && Count(b.candidates, {Pending}) == 0
      && Aging(cs, ages)
  {
    hide ProofOf, Classify, Finish, Evaluate, Blockers, Touched;
    var cs := ClassifyAll(env, env.raids);
    EvaluatedAges(cs, env.asOf, env.threshold.value);
    NoneAssessed(env, env.raids);
    FinishCounts(cs, Ages(env).value, env.threshold.value);
    if env.raids != [] { ClassifiedShape(env, env.raids, 0); }
  }

  /** Every candidate is excluded, unknown or assessed, and the counts say how many of each there are. */
  lemma CandidatesAddUp(env: Env, strict: bool)
    requires Reached(env) && Build(env, strict).Ok?
    ensures var b := Build(env, strict).value;
      b.candidateCount == Count(b.candidates, {Excluded}) + b.unknown + b.assessed
  {
    BuiltParts(env, strict);
    CountsAdd(Build(env, strict).value.candidates);
    hide Build;
  }

  /** That there are no open blockers is said exactly when the inventory is attested and every item is excluded. */
  lemma NoOpenBlockersIff(env: Env, strict: bool)
    requires Build(env, strict).Ok?
    ensures var b := Build(env, strict).value;
      b.noOpenBlockers == Some(true) <==>
        Reached(env) && Blocking(b.inventory) && forall c :: c in b.candidates ==> c.outcome == Excluded
  {
    if Reached(env) {
      BuiltParts(env, strict);
      var b := Build(env, strict).value;
      CountsAdd(b.candidates);
      CountZero(b.candidates, UNKNOWN);
      CountZero(b.candidates, ASSESSED);
      CountZero(b.candidates, {Pending});
      forall c | c in b.candidates
        ensures c.outcome == Excluded <==> c.outcome !in UNKNOWN && c.outcome !in ASSESSED && c.outcome != Pending
      {
      }
    }
    hide ProofOf, ClassifyAll, Evaluate, Touched;
  }

  /** Whatever the builder produces, within the limits of the read, the reader accepts: no check of the reader fails,
      the proofs it binds rest on at most a thousand versions, and it gives advice or says there is none. */
  lemma ReaderAccepts(env: Env, strict: bool, readable: bool)
    requires Sound(env) && Build(env, strict).Ok? && !Build(env, strict).value.overLimit
    ensures Observe(Build(env, strict).value, env.threshold, env.asOf, readable).Ok?
    ensures var b := Build(env, strict).value;
      Observe(b, env.threshold, env.asOf, readable).value.Grounded? <==> !b.coverage.Unassessable? && b.newConflicts == {} && readable
  {
    hide Build, Sound, Reached, Rechecked, Parses, BindAll, BindingOf, VersionCount;
    if !Build(env, strict).value.coverage.Unassessable? {
      CoveredIsReached(env, strict);
      ReaderParses(env, strict);
      ReaderRechecks(env, strict);
      ReaderBinds(env, strict);
    }
  }

  lemma CoveredIsReached(env: Env, strict: bool)
    requires Build(env, strict).Ok? && !Build(env, strict).value.coverage.Unassessable?
    ensures Reached(env)
  {
    hide ProofOf, ClassifyAll, Evaluate, Touched;
  }

  lemma ReaderParses(env: Env, strict: bool)
    requires Sound(env) && Reached(env) && Build(env, strict).Ok?
    ensures Parses(Build(env, strict).value)
  {
    BuiltParts(env, strict);
    hide Build, ProofOf, Finish, Classify, CandidateParses;
    TouchedDistinct(env);
    TouchedSize(env);
    DependenciesBound(env, Touched(env));
    ProofBounded(env, Inventory, BooleanKind, false);
    hide Touched;
    CandidatesParse(env, strict);
  }

  lemma CandidatesParse(env: Env, strict: bool)
    requires Sound(env) && Reached(env) && Build(env, strict).Ok?
    ensures forall c :: c in Build(env, strict).value.candidates ==> CandidateParses(c)
  {
    assert |Build(env, strict).value.candidates| == |env.raids| by {
      BuiltParts(env, strict);
      hide Build;
    }
    var cs := Build(env, strict).value.candidates;
    hide Build, Sound, Reached, CandidateParses, Consistent, AgeAgrees, Ages;
    forall c | c in cs
      ensures CandidateParses(c)
    {
      var k :| 0 <= k < |cs| && cs[k] == c;
      CandidateAt(env, strict, k);
    }
  }

  /** What the checks say of one candidate. */
  lemma CandidateAt(env: Env, strict: bool, k: nat)
    requires Sound(env) && Reached(env) && Build(env, strict).Ok? && k < |env.raids|
    ensures Ages(env).Ok? && |Build(env, strict).value.candidates| == |env.raids|
    ensures var c := Build(env, strict).value.candidates[k];
      Consistent(c, env.asOf) && AgeAgrees(c, Ages(env).value, env.threshold.value) && CandidateParses(c) && c.raid == env.raids[k]
  {
    BuiltParts(env, strict);
    hide Build;
    var ages, raid := Ages(env).value, env.raids[k];
    FinishedAt(env, ages, env.threshold.value, k);
    WithinTypes(env, k);
    ClassifiedShape(env, env.raids, k);
    ClassifyOutcome(env, raid);
    assert Classify(env, raid) in ClassifyAll(env, env.raids);
    hide Classify, Ages, Finish;
    FinishedConsistent(env, raid, ages, env.threshold.value);
  }

  lemma ReaderRechecks(env: Env, strict: bool)
    requires Sound(env) && Reached(env) && Build(env, strict).Ok? && !Build(env, strict).value.coverage.Unassessable?
    ensures GatesOpen(Build(env, strict).value, env.threshold) && Rechecked(Build(env, strict).value, env.threshold.value, env.asOf)
  {
    BuiltParts(env, strict);
    var b := Build(env, strict).value;
    hide Build, Sound, ProofOf, Finish, Classify, Evaluate, FinishAll, Touched, AuthoritiesOf, DependenciesOf;
    RaidsAreOrdered(env, strict);
    NoneAssessed(env, env.raids);
    SameBlockers(ClassifyAll(env, env.raids), Ages(env).value, env.threshold.value);
    forall k | 0 <= k < |b.candidates|
      ensures Consistent(b.candidates[k], env.asOf) && AgeAgrees(b.candidates[k], Ages(env).value, env.threshold.value)
    {
      CandidateAt(env, strict, k);
    }
    hide Consistent, AgeAgrees, RaidsOrdered;
  }

  lemma RaidAt(env: Env, strict: bool, k: nat)
    requires Sound(env) && Reached(env) && Build(env, strict).Ok? && k < |env.raids|
    ensures |Build(env, strict).value.candidates| == |env.raids|
    ensures Build(env, strict).value.candidates[k].raid == env.raids[k]
  {
    hide Build, Sound, Reached, Consistent, AgeAgrees, CandidateParses, Ages;
    CandidateAt(env, strict, k);
  }

  lemma RaidsAreOrdered(env: Env, strict: bool)
    requires Sound(env) && Reached(env) && Build(env, strict).Ok?
    ensures RaidsOrdered(Build(env, strict).value.candidates)
  {
    assert |Build(env, strict).value.candidates| == |env.raids| by {
      BuiltParts(env, strict);
      hide Build;
    }
    var cs := Build(env, strict).value.candidates;
    hide Build, Reached;
    forall k | 0 <= k < |cs|
      ensures cs[k].raid == env.raids[k]
    {
      RaidAt(env, strict, k);
    }
  }

  lemma ReaderBinds(env: Env, strict: bool)
    requires Sound(env) && Reached(env) && Build(env, strict).Ok? && !Build(env, strict).value.coverage.Unassessable?
    ensures var b := Build(env, strict).value;
            var inventory, others := BindingOf(b.inventory, Inventory, Flag(true), b.authorities), BindAll(b.candidates, b.authorities);
      inventory.Some? && others.Some? && VersionCount([inventory.value] + others.value) <= LIMIT
  {
    BuiltParts(env, strict);
    var b := Build(env, strict).value;
    hide Build;
    assert Inventory in Touched(env);
    ProofBinds(env, Inventory, BooleanKind, false);
    assert env.raids[..|env.raids|] == env.raids;
    AllBind(env, Ages(env).value, env.threshold.value, |env.raids|);
    TouchedSize(env);
    TypesSizeAppend(env, [Inventory], AllTypes(env, env.raids));
    assert [Inventory][1..] == [];
    assert TypesSize(env, [Inventory]) == Size(env, Inventory);
    hide ProofOf, BindingOf, BindAll, AuthoritiesOf, FinishAll, ClassifyAll, Size, Ages, Sound;
    var inventory := BindingOf(b.inventory, Inventory, Flag(true), b.authorities).value;
    CountOne([inventory]);
    VersionCountAppend([inventory], BindAll(b.candidates, b.authorities).value);
  }

  // ---------- the builder itself does not fail ----------

  ghost predicate Datable(asOf: Date, bs: seq<(nat, Date)>) {
    && (forall i, j :: 0 <= i < j < |bs| ==> bs[i].0 != bs[j].0)
    && forall i :: 0 <= i < |bs| ==> IsDate(bs[i].1) && !Before(asOf, bs[i].1)
  }

  lemma {:induction false} EvaluateSucceeds(asOf: Date, minimum: int, bs: seq<(nat, Date)>)
    requires IsDate(asOf) && Datable(asOf, bs)
    ensures Evaluate(asOf, minimum, bs).Ok?
  {
    hide IsDate, Before, DayOrdinal;
    if bs != [] {
      var n := |bs| - 1;
      assert forall i :: 0 <= i < n ==> bs[..n][i] == bs[i];
      EvaluateSucceeds(asOf, minimum, bs[..n]);
      EvaluateKeys(asOf, minimum, bs[..n]);
    }
  }

  lemma {:induction false} PendingAreDatable(cs: seq<Candidate>, asOf: Date)
    requires forall i, j :: 0 <= i < j < |cs| ==> cs[i].raid.key != cs[j].raid.key
    requires forall c :: c in cs && c.outcome.Pending? ==> IsDate(DateOf(c)) && !Before(asOf, DateOf(c))
    ensures Datable(asOf, Blockers(cs, {Pending}))
    ensures forall b :: b in Blockers(cs, {Pending}) ==> exists c :: c in cs && c.raid.key == b.0
  {
    hide IsDate, Before, DateOf;
    if cs != [] {
      var before, c := cs[..|cs| - 1], cs[|cs| - 1];
      assert cs == before + [c];
      PendingAreDatable(before, asOf);
      BlockersSnoc(before, c, {Pending});
      var bs := Blockers(before, {Pending});
      forall i | 0 <= i < |bs|
        ensures bs[i].0 != c.raid.key
      {
        assert bs[i] in bs;
        var d :| d in before && d.raid.key == bs[i].0;
        var k :| 0 <= k < |before| && before[k] == d;
        assert cs[k] == d;
      }
    }
  }

  lemma PendingHasDate(env: Env, raid: Raid)
    requires Sound(env) && Classify(env, raid).outcome.Pending?
    ensures IsDate(DateOf(Classify(env, raid))) && !Before(env.asOf, DateOf(Classify(env, raid)))
  {
    ProofFacts(env, OpenedAt(raid.id), DateKind, true);
    hide IsDate, Before;
  }

  /** The builder fails only if preparing a fact fails, and then only if it is asked to be strict. */
  lemma BuildFailsIff(env: Env, strict: bool)
    requires Sound(env)
    ensures Build(env, strict).Err? <==> Reached(env) && strict && exists t :: t in Touched(env) && Throws(env, t)
  {
    var cs := ClassifyAll(env, env.raids);
    if Reached(env) {
      forall k | 0 <= k < |env.raids|
        ensures |cs| == |env.raids| && cs[k].raid == env.raids[k]
        ensures cs[k].outcome.Pending? ==> IsDate(DateOf(cs[k])) && !Before(env.asOf, DateOf(cs[k]))
      {
        ClassifiedShape(env, env.raids, k);
        ClassifyOutcome(env, env.raids[k]);
        if cs[k].outcome.Pending? { PendingHasDate(env, env.raids[k]); }
      }
      hide Classify, IsDate, Before, ProofOf, Evaluate, DateOf;
      PendingAreDatable(cs, env.asOf);
      EvaluateSucceeds(env.asOf, env.threshold.value, Blockers(cs, {Pending}));
    }
    hide ProofOf, ClassifyAll, Evaluate, Touched, Sound, Throws;
  }
}
