/** The age of blockers: what is built from the resolved facts about the open items, and what the advice reader checks
    of it again before it gives advice. */
module BlockerAge {
  import opened Wrappers
  import opened CalendarAge

  const MAX_RAIDS: nat := 50
  const LIMIT: nat := 1000

  /** The facts asked for: one about the inventory, and two about each item. */
  datatype FactType = Inventory | BlocksDelivery(raid: nat) | OpenedAt(raid: nat)

  datatype Kind = BooleanKind | DateKind | OtherKind

  datatype Raw = Flag(b: bool) | Day(d: Date) | Junk

  datatype Fact = Fact(id: nat, factType: FactType, revision: nat)

  datatype Raid = Raid(id: nat, key: nat)

  /** A version; trusted means visible, current, a human statement and confirmed by a human. */
  datatype Version = Version(id: nat, sourceId: nat, trusted: bool)

  datatype Policy = Policy(id: nat, throughRevision: nat, event: nat, eventRevision: nat)

  /** What the authority engine says of one fact; the selectors of its policy may all ask for finite validity, or all
      for validity until superseded. */
  datatype Prepared = Prepared(resolved: bool, value: Option<(Kind, Raw)>, supporting: seq<nat>, evidence: seq<nat>,
                               versions: seq<Version>, finite: bool, untilSuperseded: bool, policy: Option<Policy>,
                               newConflicts: seq<nat>)

  /** What the builder reads. Preparing a fact may fail. */
  datatype Env = Env(raids: seq<Raid>, facts: seq<Fact>, prepared: FactType -> Option<Prepared>, historyFits: bool,
                     canonicalSealed: bool, threshold: Option<int>, asOf: Date)

  datatype Reason = FactMissing | AuthorityUnavailable | NotResolved | ValueTypeMismatch | NotCurrent | FutureOpenedAt
                  | InvalidOpenedAt

  datatype Proof = Proof(resolved: bool, reason: Option<Reason>, value: Option<Raw>, factId: Option<nat>,
                         versionIds: seq<nat>, evidenceIds: seq<nat>)

  datatype Outcome = Excluded | UnknownClassification | UnassessableOpenedAt | Pending | Aged | WithinThreshold

  datatype Candidate = Candidate(raid: Raid, classification: Proof, openedAt: Option<Proof>, outcome: Outcome,
                                 reason: Option<Reason>, age: Option<int>, exceeded: Option<bool>)

  datatype Authority = Authority(factId: nat, factType: FactType, factRevision: nat, policy: Option<Policy>)

  datatype Coverage = Complete | Partial | Unassessable

  datatype Gates = Gates(canonicalSealed: bool, raidSnapshotBounded: bool, inventoryAttested: bool,
                         thresholdConfigured: bool, sourceHistoryComplete: bool)

  datatype Built = Built(coverage: Coverage, gates: Gates, overLimit: bool, threshold: Option<int>, inventory: Proof,
                         candidates: seq<Candidate>, authorities: seq<Authority>, dependencies: set<(nat, nat)>,
                         candidateCount: nat, assessed: nat, unknown: nat, aged: nat, noOpenBlockers: Option<bool>,
                         newConflicts: set<nat>)

  datatype Error = PreparationFailed | InvalidSignals | Unavailable

  // ---------- proofs ----------

  function FactOf(facts: seq<Fact>, t: FactType): Option<Fact> {
    if facts == [] then None else if facts[0].factType == t then Some(facts[0]) else FactOf(facts[1..], t)
  }

  predicate Throws(env: Env, t: FactType) { FactOf(env.facts, t).Some? && env.prepared(t).None? }

  function Selected(p: Prepared): seq<Version> { Filter((v: Version) => v.id in p.supporting, p.versions) }

  predicate Trusted(p: Prepared, period: bool) {
    && (if period then p.untilSuperseded else p.finite)
    && p.supporting != []
    && |Selected(p)| == |p.supporting|
    && forall v :: v in Selected(p) ==> v.trusted
  }

  /** Without repetition. */
  function Unique(ids: seq<nat>): seq<nat> {
    if ids == [] then []
    else
      var rest := Unique(ids[1..]);
      if ids[0] in rest then rest else [ids[0]] + rest
  }

  function UnknownProof(reason: Reason, factId: Option<nat>): Proof { Proof(false, Some(reason), None, factId, [], []) }

  function ProofOf(env: Env, t: FactType, kind: Kind, period: bool): Proof {
    var fact := FactOf(env.facts, t);
    if fact.None? then UnknownProof(FactMissing, None)
    else
      var p := env.prepared(t);
      if p.None? then UnknownProof(AuthorityUnavailable, Some(fact.value.id))
      else if !p.value.resolved || p.value.value.None? || p.value.value.value.0 != kind then
        UnknownProof(if p.value.resolved then ValueTypeMismatch else NotResolved, Some(fact.value.id))
      else if !Trusted(p.value, period) then UnknownProof(NotCurrent, Some(fact.value.id))
      else Proof(true, None, Some(p.value.value.value.1), Some(fact.value.id), p.value.supporting, Unique(p.value.evidence))
  }

  // ---------- the builder ----------

  predicate Blocking(classification: Proof) { classification.resolved && classification.value == Some(Flag(true)) }

  /** The classification of one item, before ages are computed. */
  function Classify(env: Env, raid: Raid): Candidate {
    var c := ProofOf(env, BlocksDelivery(raid.id), BooleanKind, false);
    if !c.resolved then Candidate(raid, c, None, UnknownClassification, c.reason, None, None)
    else if c.value == Some(Flag(false)) then Candidate(raid, c, None, Excluded, None, None, None)
    else if c.value != Some(Flag(true)) then
      Candidate(raid, c, None, UnknownClassification, Some(ValueTypeMismatch), None, None)
    else
      var o := ProofOf(env, OpenedAt(raid.id), DateKind, true);
      if !o.resolved then Candidate(raid, c, Some(o), UnassessableOpenedAt, o.reason, None, None)
      else match o.value
        case Some(Day(d)) =>
          if Before(env.asOf, d) then Candidate(raid, c, Some(o), UnassessableOpenedAt, Some(FutureOpenedAt), None, None)
          else Candidate(raid, c, Some(o), Pending, None, None, None)
        case _ => Candidate(raid, c, Some(o), UnassessableOpenedAt, Some(InvalidOpenedAt), None, None)
  }

  function ClassifyAll(env: Env, raids: seq<Raid>): seq<Candidate> {
    if raids == [] then [] else [Classify(env, raids[0])] + ClassifyAll(env, raids[1..])
  }

  /** The facts prepared for an item. */
  function TypesOf(env: Env, raid: Raid): seq<FactType> {
    [BlocksDelivery(raid.id)]
    + if Blocking(ProofOf(env, BlocksDelivery(raid.id), BooleanKind, false)) then [OpenedAt(raid.id)] else []
  }

  function AllTypes(env: Env, raids: seq<Raid>): seq<FactType> {
    if raids == [] then [] else TypesOf(env, raids[0]) + AllTypes(env, raids[1..])
  }

  function Touched(env: Env): seq<FactType> { [Inventory] + AllTypes(env, env.raids) }

  function AuthorityOf(env: Env, t: FactType): seq<Authority> {
    var f, p := FactOf(env.facts, t), env.prepared(t);
    if f.Some? && p.Some? then [Authority(f.value.id, t, f.value.revision, p.value.policy)] else []
  }

  function AuthoritiesOf(env: Env, types: seq<FactType>): seq<Authority> {
    if types == [] then [] else AuthorityOf(env, types[0]) + AuthoritiesOf(env, types[1..])
  }

  function DependenciesOf(env: Env, types: seq<FactType>): set<(nat, nat)> {
    if types == [] then {}
    else
      var f, p := FactOf(env.facts, types[0]), env.prepared(types[0]);
      (if f.Some? && p.Some? then set v | v in p.value.versions :: (f.value.id, v.sourceId) else {})
      + DependenciesOf(env, types[1..])
  }

  function ConflictsOf(env: Env, types: seq<FactType>): set<nat> {
    if types == [] then {}
    else
      var f, p := FactOf(env.facts, types[0]), env.prepared(types[0]);
      (if f.Some? && p.Some? then set c | c in p.value.newConflicts else {}) + ConflictsOf(env, types[1..])
  }

  /** The signals of blockers with their dates; the same key twice, no calendar date, or a future one is an error. */
  function Evaluate(asOf: Date, minimum: int, blockers: seq<(nat, Date)>): Result<map<nat, int>, Error> {
    if blockers == [] then Ok(map[])
    else
      var n := |blockers| - 1;
      var ages :- Evaluate(asOf, minimum, blockers[..n]);
      var (key, d) := blockers[n];
      if key in ages || !IsDate(d) || !IsDate(asOf) || Before(asOf, d) then Err(InvalidSignals)
      else Ok(ages[key := DayOrdinal(asOf) - DayOrdinal(d)])
  }

  function DateOf(c: Candidate): Date {
    if c.openedAt.Some? && c.openedAt.value.value.Some? && c.openedAt.value.value.value.Day?
    then c.openedAt.value.value.value.d else Date(1, 1, 1)
  }

  function Blockers(cs: seq<Candidate>, wanted: set<Outcome>): seq<(nat, Date)> {
    if cs == [] then []
    else
      var n := |cs| - 1;
      Blockers(cs[..n], wanted) + (if cs[n].outcome in wanted then [(cs[n].raid.key, DateOf(cs[n]))] else [])
  }

  function Finish(c: Candidate, ages: map<nat, int>, minimum: int): Candidate {
    if !c.outcome.Pending? || c.raid.key !in ages then c
    else
      var age := ages[c.raid.key];
      c.(outcome := if age >= minimum then Aged else WithinThreshold, age := Some(age), exceeded := Some(age >= minimum))
  }

  function FinishAll(cs: seq<Candidate>, ages: map<nat, int>, minimum: int): seq<Candidate> {
    if cs == [] then [] else [Finish(cs[0], ages, minimum)] + FinishAll(cs[1..], ages, minimum)
  }

  function Count(cs: seq<Candidate>, wanted: set<Outcome>): nat {
    if cs == [] then 0 else (if cs[0].outcome in wanted then 1 else 0) + Count(cs[1..], wanted)
  }

  const UNKNOWN := {UnknownClassification, UnassessableOpenedAt}
  const ASSESSED := {Aged, WithinThreshold}

  predicate ThresholdValid(t: Option<int>) { t.Some? && 1 <= t.value <= 3650 }

  function Empty(env: Env, overLimit: bool, gates: Gates): Built {
    Built(Unassessable, gates, overLimit, if ThresholdValid(env.threshold) then env.threshold else None,
          UnknownProof(FactMissing, None), [], [], {}, 0, 0, 0, 0, None, {})
  }

  function CoverageOf(attested: bool, unknown: nat, assessed: nat): Coverage {
    if !attested then Unassessable
    else if unknown == 0 then Complete
    else if assessed > 0 then Partial
    else Unassessable
  }

  function Build(env: Env, strict: bool): Result<Built, Error> {
    var configured := ThresholdValid(env.threshold);
    if !env.canonicalSealed || !configured then Ok(Empty(env, false, Gates(env.canonicalSealed, false, false, configured, false)))
    else if |env.raids| > MAX_RAIDS then Ok(Empty(env, true, Gates(true, false, false, true, false)))
    else if !env.historyFits then Ok(Empty(env, true, Gates(true, true, false, true, false)))
    else if strict && exists t :: t in Touched(env) && Throws(env, t) then Err(PreparationFailed)
    else
      var inventory := ProofOf(env, Inventory, BooleanKind, false);
      var attested := Blocking(inventory);
      var classified := ClassifyAll(env, env.raids);
      var ages :- Evaluate(env.asOf, env.threshold.value, Blockers(classified, {Pending}));
      var candidates := FinishAll(classified, ages, env.threshold.value);
      var unknown := Count(classified, UNKNOWN);
      var assessed := |ages|;
      var coverage := CoverageOf(attested, unknown, assessed);
      Ok(Built(coverage, Gates(true, true, attested, true, true), false, env.threshold, inventory, candidates,
               AuthoritiesOf(env, Touched(env)), DependenciesOf(env, Touched(env)), |env.raids|, assessed, unknown,
               Count(candidates, {Aged}), if coverage == Complete then Some(assessed == 0) else None,
               ConflictsOf(env, Touched(env))))
  }

  // ---------- the builder's loops ----------

  lemma {:induction false} ClassifySnoc(env: Env, raids: seq<Raid>, raid: Raid)
    ensures ClassifyAll(env, raids + [raid]) == ClassifyAll(env, raids) + [Classify(env, raid)]
    ensures AllTypes(env, raids + [raid]) == AllTypes(env, raids) + TypesOf(env, raid)
  {
    if raids == [] {
      assert raids + [raid] == [raid];
    } else {
      assert (raids + [raid])[1..] == raids[1..] + [raid];
      ClassifySnoc(env, raids[1..], raid);
    }
  }

  lemma {:induction false} CountSnoc(cs: seq<Candidate>, c: Candidate, wanted: set<Outcome>)
    ensures Count(cs + [c], wanted) == Count(cs, wanted) + if c.outcome in wanted then 1 else 0
  {
    if cs == [] {
      assert cs + [c] == [c];
    } else {
      assert (cs + [c])[1..] == cs[1..] + [c];
      CountSnoc(cs[1..], c, wanted);
    }
  }

  lemma BlockersSnoc(cs: seq<Candidate>, c: Candidate, wanted: set<Outcome>)
    ensures Blockers(cs + [c], wanted) == Blockers(cs, wanted) + if c.outcome in wanted then [(c.raid.key, DateOf(c))] else []
  {
    assert (cs + [c])[..|cs|] == cs;
  }

  /** What has been collected from the first `k` items. */
  ghost predicate Collected(env: Env, k: nat, candidates: seq<Candidate>, unknown: nat, pending: seq<(nat, Date)>, types: seq<FactType>)
    requires k <= |env.raids|
  {
    && candidates == ClassifyAll(env, env.raids[..k]) && types == AllTypes(env, env.raids[..k])
    && unknown == Count(candidates, UNKNOWN) && pending == Blockers(candidates, {Pending})
  }

  lemma NothingCollected(env: Env)
    ensures Collected(env, 0, [], 0, [], [])
  {
    assert env.raids[..0] == [];
  }

  lemma AllCollected(env: Env, candidates: seq<Candidate>, unknown: nat, pending: seq<(nat, Date)>, types: seq<FactType>)
    requires Collected(env, |env.raids|, candidates, unknown, pending, types)
    ensures candidates == ClassifyAll(env, env.raids) && types == AllTypes(env, env.raids)
    ensures unknown == Count(candidates, UNKNOWN) && pending == Blockers(candidates, {Pending})
  {
    assert env.raids[..|env.raids|] == env.raids;
    hide ClassifyAll, AllTypes, Count, Blockers;
  }

  /** What one more item adds. */
  lemma CollectedMore(env: Env, k: nat, candidates: seq<Candidate>, unknown: nat, pending: seq<(nat, Date)>, types: seq<FactType>)
    requires k < |env.raids| && Collected(env, k, candidates, unknown, pending, types)
    ensures var raid, c := env.raids[k], Classify(env, env.raids[k]);
      Collected(env, k + 1, candidates + [c], unknown + (if c.outcome in UNKNOWN then 1 else 0),
                pending + (if c.outcome.Pending? then [(raid.key, DateOf(c))] else []), types + TypesOf(env, raid))
  {
    var raid, c := env.raids[k], Classify(env, env.raids[k]);
    assert env.raids[..k + 1] == env.raids[..k] + [raid];
    assert c.raid == raid by { hide ProofOf; }
    hide ClassifyAll, Classify, AllTypes, TypesOf, Count, Blockers, ProofOf;
    ClassifySnoc(env, env.raids[..k], raid);
    CountSnoc(candidates, c, UNKNOWN);
    BlockersSnoc(candidates, c, {Pending});
  }

  /** Goes through the open items once: classifies each, counts the unknown ones and collects those to be aged. */
  method ClassifyItems(env: Env, strict: bool)
    returns (failed: bool, candidates: seq<Candidate>, unknown: nat, pending: seq<(nat, Date)>, types: seq<FactType>)
    ensures failed <==> strict && exists t :: t in AllTypes(env, env.raids) && Throws(env, t)
    ensures !failed ==>
              && candidates == ClassifyAll(env, env.raids) && types == AllTypes(env, env.raids)
              && unknown == Count(candidates, UNKNOWN) && pending == Blockers(candidates, {Pending})
  {
    hide Collected, Classify, ClassifyAll, AllTypes, TypesOf, Throws, Count, Blockers;
    failed, candidates, unknown, pending, types := false, [], 0, [], [];
    NothingCollected(env);
    var k := 0;
    while k < |env.raids|
      invariant k <= |env.raids| && !failed
      invariant Collected(env, k, candidates, unknown, pending, types)
      invariant strict ==> forall t :: t in types ==> !Throws(env, t)
    {
      var raid := env.raids[k];
      var asked := TypesOf(env, raid);
      if strict && exists t :: t in asked && Throws(env, t) {
        failed := true;
        TypesPrefix(env, env.raids, k);
        return;
      }
      CollectedMore(env, k, candidates, unknown, pending, types);
      assert pending + [] == pending;
      var c := Classify(env, raid);
      if c.outcome in UNKNOWN { unknown := unknown + 1; }
      if c.outcome.Pending? { pending := pending + [(raid.key, DateOf(c))]; }
      candidates, types := candidates + [c], types + asked;
      k := k + 1;
    }
    AllCollected(env, candidates, unknown, pending, types);
  }

  lemma {:induction false} TypesPrefix(env: Env, raids: seq<Raid>, k: nat)
    requires k < |raids|
    ensures forall t :: t in TypesOf(env, raids[k]) ==> t in AllTypes(env, raids)
  {
    if k > 0 {
      TypesPrefix(env, raids[1..], k - 1);
    }
  }

  /** Gives the pending candidates their ages. */
  method AssignAges(classified: seq<Candidate>, ages: map<nat, int>, minimum: int) returns (candidates: seq<Candidate>)
    ensures candidates == FinishAll(classified, ages, minimum)
  {
    candidates := classified;
    var k := 0;
    while k < |classified|
      invariant k <= |classified| == |candidates|
      invariant forall i :: 0 <= i < k ==> candidates[i] == Finish(classified[i], ages, minimum)
      invariant forall i :: k <= i < |classified| ==> candidates[i] == classified[i]
    {
      if candidates[k].outcome.Pending? && candidates[k].raid.key in ages {
        var age := ages[candidates[k].raid.key];
        candidates := candidates[k := candidates[k].(outcome := if age >= minimum then Aged else WithinThreshold,
                                                     age := Some(age), exceeded := Some(age >= minimum))];
      }
      k := k + 1;
    }
    FinishEach(classified, ages, minimum);
    assert candidates == FinishAll(classified, ages, minimum);
  }

  lemma {:induction false} FinishEach(cs: seq<Candidate>, ages: map<nat, int>, minimum: int)
    ensures |FinishAll(cs, ages, minimum)| == |cs|
    ensures forall i :: 0 <= i < |cs| ==> FinishAll(cs, ages, minimum)[i] == Finish(cs[i], ages, minimum)
  {
    if cs != [] {
      FinishEach(cs[1..], ages, minimum);
    }
  }

  /** The whole builder. */
  method BuildAssessment(env: Env, strict: bool) returns (r: Result<Built, Error>)
    ensures r == Build(env, strict)
  {
    hide ProofOf, Finish, Classify, Evaluate;
    var configured := ThresholdValid(env.threshold);
    if !env.canonicalSealed || !configured {
      return Ok(Empty(env, false, Gates(env.canonicalSealed, false, false, configured, false)));
    }
    if |env.raids| > MAX_RAIDS { return Ok(Empty(env, true, Gates(true, false, false, true, false))); }
    if !env.historyFits { return Ok(Empty(env, true, Gates(true, true, false, true, false))); }
    if strict && Throws(env, Inventory) {
      assert Inventory in Touched(env);
      return Err(PreparationFailed);
    }
    var inventory := ProofOf(env, Inventory, BooleanKind, false);
    var attested := Blocking(inventory);
    var failed, classified, unknown, pending, types := ClassifyItems(env, strict);
    assert forall t :: t in Touched(env) <==> t == Inventory || t in AllTypes(env, env.raids);
    if failed { return Err(PreparationFailed); }
    var ages :- Evaluate(env.asOf, env.threshold.value, pending);
    var candidates := AssignAges(classified, ages, env.threshold.value);
    var coverage := CoverageOf(attested, unknown, |ages|);
    r := Ok(Built(coverage, Gates(true, true, attested, true, true), false, env.threshold, inventory, candidates,
                  AuthoritiesOf(env, [Inventory] + types), DependenciesOf(env, [Inventory] + types), |env.raids|, |ages|,
                  unknown, Count(candidates, {Aged}), if coverage == Complete then Some(|ages| == 0) else None,
                  ConflictsOf(env, [Inventory] + types)));
  }
}
