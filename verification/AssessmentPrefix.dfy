/** Preparing an assessment of a fact from the stored rows: one fact at a time, or all of a batch from one load. */
module AssessmentPrefix {
  import opened Wrappers
  import opened ConflictPairs
  import P = PolicyLog

  const LIMIT: nat := 1000

  datatype Fact = Fact(id: string, factType: string, revision: nat)

  datatype Version = Version(id: Id, factId: string, revision: nat, sourceId: string, sourceType: string,
                             evidenceId: string, value: Value, detail: string)

  datatype Conflict = Conflict(id: string, factId: string, pair: Pair, revision: nat, detectedAt: int)

  datatype AccessState = Available | Revoked | Deleted | OtherState

  /** A source's access row, with how many reader rows it has for the actor. */
  datatype Access = Access(factId: string, sourceId: string, state: AccessState, readers: nat)

  /** The rows of one project, each table in the order in which queries return it. */
  datatype Database = Database(versions: seq<Version>, conflicts: seq<Conflict>, access: seq<Access>,
                               events: seq<P.Event>, aggregates: map<P.Scope, nat>)

  datatype Prefix = Prefix(aggregate: Option<nat>, event: Option<P.Event>, versions: seq<Version>,
                           conflicts: seq<Conflict>, access: seq<Access>, through: nat)

  datatype Verification = Valid | WasRevoked | WasDeleted | Unverifiable

  datatype Evidence = Evidence(id: string, authorized: bool, verification: Verification)

  datatype Snapshot = Snapshot(fact: Fact, asOf: int, policy: Option<P.Event>, complete: bool,
                               sources: map<string, string>, versions: seq<Version>, evidence: seq<Evidence>,
                               conflicts: seq<Conflict>)

  datatype Group = Group(recorded: bool, versionIds: seq<Id>)

  /** The resolver's verdict: the conflicts it sees, and whatever else it says. */
  datatype Resolution = Resolution(conflicts: seq<Group>, verdict: string)

  datatype Prepared = Prepared(aggregate: Option<nat>, event: Option<P.Event>, versions: seq<Version>,
                               conflicts: seq<Conflict>, newConflicts: seq<Conflict>, through: nat, complete: bool,
                               snapshot: Snapshot, result: Resolution)

  // ---------- snapshots ----------

  /** The access row of a source; a later row takes the place of an earlier one. */
  function AccessOf(access: seq<Access>, sourceId: string): Option<Access> {
    if access == [] then None
    else
      var n := |access| - 1;
      if access[n].sourceId == sourceId then Some(access[n]) else AccessOf(access[..n], sourceId)
  }

  function EvidenceOf(v: Version, access: seq<Access>): Evidence {
    var a := AccessOf(access, v.sourceId);
    Evidence(v.evidenceId, a.Some? && a.value.readers == 1,
             if a.None? then Unverifiable
             else match a.value.state
               case Available => Valid
               case Revoked => WasRevoked
               case Deleted => WasDeleted
               case OtherState => Unverifiable)
  }

  function EvidenceList(versions: seq<Version>, access: seq<Access>): seq<Evidence> {
    if versions == [] then [] else [EvidenceOf(versions[0], access)] + EvidenceList(versions[1..], access)
  }

  function SourcesOf(versions: seq<Version>): map<string, string> {
    if versions == [] then map[]
    else
      var n := |versions| - 1;
      SourcesOf(versions[..n])[versions[n].sourceId := versions[n].sourceType]
  }

  function BuildSnapshot(fact: Fact, asOf: int, policy: Option<P.Event>, versions: seq<Version>,
                         conflicts: seq<Conflict>, access: seq<Access>, complete: bool): Snapshot
  {
    if !complete then Snapshot(fact, asOf, policy, false, map[], [], [], [])
    else Snapshot(fact, asOf, policy, true, SourcesOf(versions), versions, EvidenceList(versions, access), conflicts)
  }

  function ResolverPolicy(event: Option<P.Event>): Option<P.Event> {
    if event.None? || event.value.definition.None? then None else event
  }

  // ---------- queries ----------

  function Take<T>(n: nat, rows: seq<T>): seq<T> { if |rows| <= n then rows else rows[..n] }

  function VersionsOf(db: Database, factId: string): seq<Version> {
    Filter((v: Version) => v.factId == factId, db.versions)
  }

  function VersionsThrough(db: Database, fact: Fact): seq<Version> {
    Filter((v: Version) => v.factId == fact.id && v.revision <= fact.revision, db.versions)
  }

  function ConflictsOf(db: Database, factId: string): seq<Conflict> {
    Filter((c: Conflict) => c.factId == factId, db.conflicts)
  }

  function AccessFor(db: Database, factId: string): seq<Access> {
    Filter((a: Access) => a.factId == factId, db.access)
  }

  function MaxRevision(conflicts: seq<Conflict>): nat {
    if conflicts == [] then 0
    else
      var rest := MaxRevision(conflicts[1..]);
      if conflicts[0].revision > rest then conflicts[0].revision else rest
  }

  predicate AllDetected(conflicts: seq<Conflict>, asOf: int) {
    forall c :: c in conflicts ==> c.detectedAt <= asOf
  }

  function Aggregate(db: Database, scope: P.Scope): Option<nat> {
    if scope in db.aggregates then Some(db.aggregates[scope]) else None
  }

  function ActiveEvent(db: Database, scope: P.Scope, asOf: int): Option<P.Event> {
    if scope !in db.aggregates then None else P.Latest(P.History(db.events, scope), db.aggregates[scope], asOf)
  }

  // ---------- preparing one fact ----------

  function ValuesOf(versions: seq<Version>): map<Id, Value> {
    if versions == [] then map[]
    else
      var n := |versions| - 1;
      ValuesOf(versions[..n])[versions[n].id := versions[n].value]
  }

  lemma {:induction false} ValuesKnow(versions: seq<Version>, v: Version)
    requires v in versions
    ensures v.id in ValuesOf(versions)
  {
    var n := |versions| - 1;
    if v != versions[n] {
      ValuesKnow(versions[..n], v);
    }
  }

  /** What is assumed of the resolver: it speaks of versions it was shown. */
  ghost predicate Contract(resolve: Snapshot -> Resolution) {
    forall s: Snapshot, g: Group :: g in resolve(s).conflicts ==> Shown(s, g)
  }

  ghost predicate Shown(s: Snapshot, g: Group) {
    forall id :: id in g.versionIds ==> exists v :: v in s.versions && v.id == id
  }

  function Unrecorded(groups: seq<Group>): (r: seq<seq<Id>>)
    ensures forall ids :: ids in r <==> exists g :: g in groups && !g.recorded && g.versionIds == ids
  {
    if groups == [] then []
    else (if groups[0].recorded then [] else [groups[0].versionIds]) + Unrecorded(groups[1..])
  }

  function PairsOf(conflicts: seq<Conflict>): seq<Pair> {
    if conflicts == [] then [] else [conflicts[0].pair] + PairsOf(conflicts[1..])
  }

  /** The rows of new pairs: numbered on from the last stored conflict, under identifiers drawn afresh. */
  function NewRows(fact: Fact, asOf: int, pairs: seq<Pair>, through: nat, freshId: nat -> string): seq<Conflict> {
    if pairs == [] then []
    else
      [Conflict(freshId(through + 1), fact.id, pairs[0], through + 1, asOf)]
      + NewRows(fact, asOf, pairs[1..], through + 1, freshId)
  }

  function InsertRow(c: Conflict, rows: seq<Conflict>, before: (string, string) -> bool): seq<Conflict> {
    if rows == [] || !before(rows[0].id, c.id) then [c] + rows else [rows[0]] + InsertRow(c, rows[1..], before)
  }

  function SortRows(rows: seq<Conflict>, before: (string, string) -> bool): seq<Conflict> {
    if rows == [] then [] else InsertRow(rows[0], SortRows(rows[1..], before), before)
  }

  datatype Env = Env(resolve: Snapshot -> Resolution, freshId: nat -> string, before: (string, string) -> bool)

  lemma GroupsKnown(env: Env, s: Snapshot)
    requires Contract(env.resolve)
    ensures forall g :: g in Unrecorded(env.resolve(s).conflicts) ==> Known(ValuesOf(s.versions), g)
  {
    forall ids | ids in Unrecorded(env.resolve(s).conflicts)
      ensures Known(ValuesOf(s.versions), ids)
    {
      var g :| g in env.resolve(s).conflicts && !g.recorded && g.versionIds == ids;
      assert Shown(s, g);
      forall id | id in ids
        ensures id in ValuesOf(s.versions)
      {
        var v :| v in s.versions && v.id == id;
        ValuesKnow(s.versions, v);
      }
    }
  }

  /** From here on the two ways of loading are the same. */
  function Conclude(env: Env, fact: Fact, asOf: int, p: Prefix, complete: bool): Result<Prepared, Error>
    requires Contract(env.resolve)
  {
    var policy := ResolverPolicy(p.event);
    var snapshot := BuildSnapshot(fact, asOf, policy, p.versions, p.conflicts, p.access, complete);
    var result := env.resolve(snapshot);
    var groups := Unrecorded(result.conflicts);
    if !complete || p.event.None? || groups == [] then
      Ok(Prepared(p.aggregate, p.event, p.versions, p.conflicts, [], p.through, complete, snapshot, result))
    else
      GroupsKnown(env, snapshot);
      var values := ValuesOf(p.versions);
      if exists g :: g in groups && !Pairable(values, g) then Err(NoDifference)
      else
        var pairs := Missing(AllEdges(values, groups), PairsOf(p.conflicts));
        var rows := NewRows(fact, asOf, pairs, p.through, env.freshId);
        var conflicts := SortRows(p.conflicts + rows, env.before);
        var again := |conflicts| <= LIMIT;
        var snapshot' := BuildSnapshot(fact, asOf, policy, p.versions, conflicts, p.access, again);
        Ok(Prepared(p.aggregate, p.event, p.versions, conflicts, rows, p.through + |rows|, again, snapshot',
                    env.resolve(snapshot')))
  }

  function Complete(versions: seq<Version>, conflicts: seq<Conflict>, asOf: int): bool {
    |versions| <= LIMIT && |conflicts| <= LIMIT && AllDetected(conflicts, asOf)
  }

  /** What the simple path reads for one fact. */
  function SinglePrefix(db: Database, scope: P.Scope, fact: Fact, asOf: int): Prefix {
    var versions := Take(LIMIT + 1, VersionsThrough(db, fact));
    var conflicts := Take(LIMIT + 1, ConflictsOf(db, fact.id));
    Prefix(Aggregate(db, scope), ActiveEvent(db, scope, asOf), versions, conflicts,
           if Complete(versions, conflicts, asOf) then AccessFor(db, fact.id) else [],
           MaxRevision(ConflictsOf(db, fact.id)))
  }

  function Prepare(db: Database, env: Env, scope: P.Scope, fact: Fact, asOf: int, given: Option<Prefix>)
    : Result<Prepared, Error>
    requires Contract(env.resolve)
  {
    var p := if given.Some? then given.value else SinglePrefix(db, scope, fact, asOf);
    Conclude(env, fact, asOf, p, Complete(p.versions, p.conflicts, asOf))
  }

  // ---------- loading a batch ----------

  function Revisions(facts: seq<Fact>): nat {
    if facts == [] then 0 else facts[0].revision + Revisions(facts[1..])
  }

  function Ids(facts: seq<Fact>): set<string> { set f | f in facts :: f.id }

  function SourceIds(versions: seq<Version>): set<string> { set v | v in versions :: v.sourceId }

  function BatchVersions(db: Database, facts: seq<Fact>): seq<Version> {
    Filter((v: Version) => v.factId in Ids(facts), db.versions)
  }

  function BatchConflicts(db: Database, facts: seq<Fact>): seq<Conflict> {
    Filter((c: Conflict) => c.factId in Ids(facts), db.conflicts)
  }

  function BatchAccess(db: Database, facts: seq<Fact>, sources: set<string>): seq<Access> {
    Filter((a: Access) => a.factId in Ids(facts) && a.sourceId in sources, db.access)
  }

  /** One fact's share of what was loaded for all. */
  function Share(db: Database, scope: P.Scope, fact: Fact, asOf: int,
                 versions: seq<Version>, conflicts: seq<Conflict>, access: seq<Access>): Prefix
  {
    var mine := Filter((c: Conflict) => c.factId == fact.id, conflicts);
    Prefix(Aggregate(db, scope), ActiveEvent(db, scope, asOf),
           Filter((v: Version) => v.factId == fact.id, versions), mine,
           Filter((a: Access) => a.factId == fact.id, access), MaxRevision(mine))
  }

  function BatchPrefix(db: Database, facts: seq<Fact>, scope: P.Scope, fact: Fact, asOf: int): Prefix {
    var versions := BatchVersions(db, facts);
    Share(db, scope, fact, asOf, versions, BatchConflicts(db, facts), BatchAccess(db, facts, SourceIds(versions)))
  }

  /** Whether the batch is loaded at all. */
  predicate Fits(db: Database, facts: seq<Fact>, asOf: int) {
    && Revisions(facts) <= LIMIT
    && |BatchVersions(db, facts)| <= LIMIT && |BatchConflicts(db, facts)| <= LIMIT
    && AllDetected(BatchConflicts(db, facts), asOf)
    && |BatchAccess(db, facts, SourceIds(BatchVersions(db, facts)))| <= LIMIT
  }

  function ScopeOf(customer: string, project: string, fact: Fact): P.Scope { P.Scope(customer, project, fact.factType) }

  /** Loads the rows of all facts at once and hands each fact its share, or nothing if there is too much. */
  method LoadPrefixes(db: Database, customer: string, project: string, facts: seq<Fact>, asOf: int)
    returns (r: Option<map<string, Prefix>>)
    requires forall i, j :: 0 <= i < j < |facts| ==> facts[i].id != facts[j].id
    ensures r.Some? <==> Fits(db, facts, asOf)
    ensures r.Some? ==> r.value.Keys == Ids(facts)
    ensures r.Some? ==> forall f :: f in facts ==>
                          f.id in r.value && r.value[f.id] == BatchPrefix(db, facts, ScopeOf(customer, project, f), f, asOf)
  {
    if Revisions(facts) > LIMIT { return None; }
    var versions := Take(LIMIT + 1, BatchVersions(db, facts));
    var conflicts := Take(LIMIT + 1, BatchConflicts(db, facts));
    if |versions| > LIMIT || |conflicts| > LIMIT || !AllDetected(conflicts, asOf) { return None; }
    var access := Take(LIMIT + 1, BatchAccess(db, facts, SourceIds(versions)));
    if |access| > LIMIT { return None; }
    hide Share, BatchVersions, BatchConflicts, BatchAccess, SourceIds, Ids;
    var prefixes := FillPrefixes(db, customer, project, facts, asOf, versions, conflicts, access);
    r := Some(prefixes);
  }

  lemma IdsMore(facts: seq<Fact>, f: Fact)
    ensures Ids(facts + [f]) == Ids(facts) + {f.id}
  {
    assert forall g :: g in facts + [f] <==> g in facts || g == f;
  }

  method FillPrefixes(db: Database, customer: string, project: string, facts: seq<Fact>, asOf: int,
                      versions: seq<Version>, conflicts: seq<Conflict>, access: seq<Access>)
    returns (prefixes: map<string, Prefix>)
    requires forall i, j :: 0 <= i < j < |facts| ==> facts[i].id != facts[j].id
    ensures prefixes.Keys == Ids(facts)
    ensures forall f :: f in facts ==>
              f.id in prefixes
              && prefixes[f.id] == Share(db, ScopeOf(customer, project, f), f, asOf, versions, conflicts, access)
  {
    hide Share;
    prefixes := map[];
    var k := 0;
    while k < |facts|
      invariant k <= |facts|
      invariant prefixes.Keys == Ids(facts[..k])
      invariant forall i :: 0 <= i < k ==>
                  facts[i].id in prefixes && prefixes[facts[i].id]
                  == Share(db, ScopeOf(customer, project, facts[i]), facts[i], asOf, versions, conflicts, access)
    {
      var fact := facts[k];
      IdsMore(facts[..k], fact);
      assert facts[..k + 1] == facts[..k] + [fact];
      prefixes := prefixes[fact.id := Share(db, ScopeOf(customer, project, fact), fact, asOf, versions, conflicts, access)];
      k := k + 1;
    }
    assert facts[..k] == facts;
  }

  // ---------- the two ways agree ----------

  lemma {:induction false} AccessOfShare(access: seq<Access>, factId: string, ids: set<string>, sources: set<string>, sourceId: string)
    requires factId in ids && sourceId in sources
    ensures var mine := Filter((a: Access) => a.factId == factId, access);
            var batch := Filter((a: Access) => a.factId in ids && a.sourceId in sources, access);
            AccessOf(Filter((a: Access) => a.factId == factId, batch), sourceId) == AccessOf(mine, sourceId)
  {
    if access == [] {
    } else {
      hide Filter, AccessOf;
      var n := |access| - 1;
      var before, last := access[..n], [access[n]];
      AccessOfShare(before, factId, ids, sources, sourceId);
      assert access == before + last;
      var p, q := (a: Access) => a.factId == factId, (a: Access) => a.factId in ids && a.sourceId in sources;
      FilterAppend(p, before, last);
      FilterAppend(q, before, last);
      FilterAppend(p, Filter(q, before), Filter(q, last));
      FilterOne(p, access[n]);
      FilterOne(q, access[n]);
      FilterNone(p);
      AccessOfLast(Filter(p, before), Filter(p, last), sourceId);
      AccessOfLast(Filter(p, Filter(q, before)), Filter(p, Filter(q, last)), sourceId);
    }
  }

  lemma FilterNone(keep: Access -> bool)
    ensures Filter(keep, []) == []
  {
  }

  lemma AccessOfLast(access: seq<Access>, last: seq<Access>, sourceId: string)
    requires |last| <= 1
    ensures AccessOf(access + last, sourceId)
         == if last != [] && last[0].sourceId == sourceId then Some(last[0]) else AccessOf(access, sourceId)
  {
    if last == [] {
      assert access + last == access;
    } else {
      assert (access + last)[..|access|] == access;
    }
  }

  lemma {:induction false} SameEvidence(versions: seq<Version>, a: seq<Access>, b: seq<Access>)
    requires forall v :: v in versions ==> AccessOf(a, v.sourceId) == AccessOf(b, v.sourceId)
    ensures EvidenceList(versions, a) == EvidenceList(versions, b)
  {
    if versions != [] {
      SameEvidence(versions[1..], a, b);
    }
  }

  lemma AccessAgrees(db: Database, facts: seq<Fact>, fact: Fact, v: Version)
    requires fact in facts && v in Filter((v: Version) => v.factId == fact.id, BatchVersions(db, facts))
    ensures AccessOf(Filter((a: Access) => a.factId == fact.id, BatchAccess(db, facts, SourceIds(BatchVersions(db, facts)))),
                     v.sourceId)
         == AccessOf(AccessFor(db, fact.id), v.sourceId)
  {
    AccessOfShare(db.access, fact.id, Ids(facts), SourceIds(BatchVersions(db, facts)), v.sourceId);
  }

  /** The rows of a fact that come with a batch are the rows of that fact. */
  lemma ShareOfVersions(db: Database, facts: seq<Fact>, fact: Fact)
    requires fact in facts
    ensures Filter((v: Version) => v.factId == fact.id, BatchVersions(db, facts)) == VersionsOf(db, fact.id)
    ensures |VersionsOf(db, fact.id)| <= |BatchVersions(db, facts)|
  {
    var mine, all := (v: Version) => v.factId == fact.id, (v: Version) => v.factId in Ids(facts);
    FilterTwice(mine, all, mine, db.versions);
    FilterStricter(mine, all, db.versions);
  }

  lemma ShareOfConflicts(db: Database, facts: seq<Fact>, fact: Fact)
    requires fact in facts
    ensures Filter((c: Conflict) => c.factId == fact.id, BatchConflicts(db, facts)) == ConflictsOf(db, fact.id)
    ensures |ConflictsOf(db, fact.id)| <= |BatchConflicts(db, facts)|
    ensures forall c :: c in ConflictsOf(db, fact.id) ==> c in BatchConflicts(db, facts)
  {
    var mine, all := (c: Conflict) => c.factId == fact.id, (c: Conflict) => c.factId in Ids(facts);
    FilterTwice(mine, all, mine, db.conflicts);
    FilterStricter(mine, all, db.conflicts);
  }

  /** No version of a fact is beyond the fact's revision. */
  ghost predicate Within(db: Database, fact: Fact) {
    forall v :: v in db.versions && v.factId == fact.id ==> v.revision <= fact.revision
  }

  lemma VersionsWithin(db: Database, fact: Fact)
    ensures |VersionsThrough(db, fact)| <= |VersionsOf(db, fact.id)|
    ensures |VersionsThrough(db, fact)| == |VersionsOf(db, fact.id)| <==> Within(db, fact)
    ensures Within(db, fact) ==> VersionsThrough(db, fact) == VersionsOf(db, fact.id)
  {
    var strict, loose := (v: Version) => v.factId == fact.id && v.revision <= fact.revision, (v: Version) => v.factId == fact.id;
    FilterStricter(strict, loose, db.versions);
    if Within(db, fact) {
      FilterTwice(strict, loose, strict, db.versions);
      FilterTwice(loose, strict, strict, db.versions);
      FilterAll(strict, Filter(loose, db.versions));
    }
  }

  /** Two prefixes that differ at most in access rows no version refers to. */
  ghost predicate Alike(a: Prefix, b: Prefix) {
    && a == b.(access := a.access)
    && forall v :: v in a.versions ==> AccessOf(a.access, v.sourceId) == AccessOf(b.access, v.sourceId)
  }

  lemma AlikeSnapshots(fact: Fact, asOf: int, policy: Option<P.Event>, conflicts: seq<Conflict>, a: Prefix, b: Prefix, complete: bool)
    requires Alike(a, b)
    ensures BuildSnapshot(fact, asOf, policy, a.versions, conflicts, a.access, complete)
         == BuildSnapshot(fact, asOf, policy, b.versions, conflicts, b.access, complete)
  {
    SameEvidence(a.versions, a.access, b.access);
  }

  lemma AlikeConclusions(env: Env, fact: Fact, asOf: int, a: Prefix, b: Prefix, complete: bool)
    requires Contract(env.resolve) && Alike(a, b)
    ensures Conclude(env, fact, asOf, a, complete) == Conclude(env, fact, asOf, b, complete)
  {
    forall conflicts: seq<Conflict>, again: bool
      ensures BuildSnapshot(fact, asOf, ResolverPolicy(a.event), a.versions, conflicts, a.access, again)
           == BuildSnapshot(fact, asOf, ResolverPolicy(a.event), b.versions, conflicts, b.access, again)
    {
      AlikeSnapshots(fact, asOf, ResolverPolicy(a.event), conflicts, a, b, again);
    }
    hide BuildSnapshot, SortRows, NewRows, Missing, AllEdges, Unrecorded, Alike;
  }

  lemma PrefixesAlike(db: Database, facts: seq<Fact>, scope: P.Scope, fact: Fact, asOf: int)
    requires Fits(db, facts, asOf) && fact in facts && Within(db, fact)
    ensures Alike(BatchPrefix(db, facts, scope, fact, asOf), SinglePrefix(db, scope, fact, asOf))
    ensures var p := BatchPrefix(db, facts, scope, fact, asOf); Complete(p.versions, p.conflicts, asOf)
  {
    ShareOfVersions(db, facts, fact);
    ShareOfConflicts(db, facts, fact);
    VersionsWithin(db, fact);
    forall v | v in Filter((v: Version) => v.factId == fact.id, BatchVersions(db, facts))
      ensures AccessOf(Filter((a: Access) => a.factId == fact.id, BatchAccess(db, facts, SourceIds(BatchVersions(db, facts)))),
                       v.sourceId) == AccessOf(AccessFor(db, fact.id), v.sourceId)
    {
      AccessAgrees(db, facts, fact, v);
    }
    hide VersionsThrough, VersionsOf, ConflictsOf, BatchVersions, BatchConflicts, BatchAccess, AccessFor, AccessOf, MaxRevision;
  }

  /** Whenever a batch is loaded, preparing any of its facts from its share gives what loading that fact alone gives:
      the same snapshot, resolution, completeness, new conflicts and numbers. */
  lemma BatchAgrees(db: Database, env: Env, facts: seq<Fact>, scope: P.Scope, fact: Fact, asOf: int)
    requires Contract(env.resolve) && Fits(db, facts, asOf) && fact in facts && Within(db, fact)
    ensures Prepare(db, env, scope, fact, asOf, Some(BatchPrefix(db, facts, scope, fact, asOf)))
         == Prepare(db, env, scope, fact, asOf, None)
  {
    PrefixesAlike(db, facts, scope, fact, asOf);
    var a, b := BatchPrefix(db, facts, scope, fact, asOf), SinglePrefix(db, scope, fact, asOf);
    AlikeConclusions(env, fact, asOf, a, b, true);
    hide BatchPrefix, SinglePrefix, Conclude;
  }

  /** The condition on revisions is exact: the batch reads every version of a fact, the simple path only those up to
      the fact's revision, and the snapshots they start from agree if and only if there are no others. */
  lemma SnapshotsAgreeIff(db: Database, facts: seq<Fact>, scope: P.Scope, fact: Fact, asOf: int)
    requires Fits(db, facts, asOf) && fact in facts
    ensures var a, b := BatchPrefix(db, facts, scope, fact, asOf), SinglePrefix(db, scope, fact, asOf);
      BuildSnapshot(fact, asOf, ResolverPolicy(a.event), a.versions, a.conflicts, a.access, Complete(a.versions, a.conflicts, asOf))
      == BuildSnapshot(fact, asOf, ResolverPolicy(b.event), b.versions, b.conflicts, b.access, Complete(b.versions, b.conflicts, asOf))
      <==> Within(db, fact)
  {
    ShareOfVersions(db, facts, fact);
    ShareOfConflicts(db, facts, fact);
    VersionsWithin(db, fact);
    var a, b := BatchPrefix(db, facts, scope, fact, asOf), SinglePrefix(db, scope, fact, asOf);
    if Within(db, fact) {
      PrefixesAlike(db, facts, scope, fact, asOf);
      AlikeSnapshots(fact, asOf, ResolverPolicy(a.event), a.conflicts, a, b, true);
    }
    hide VersionsThrough, VersionsOf, ConflictsOf, BatchVersions, BatchConflicts, BatchAccess, AccessFor, AccessOf, MaxRevision,
         EvidenceList, SourcesOf;
  }

  lemma ConclusionKeepsVersions(env: Env, fact: Fact, asOf: int, p: Prefix, complete: bool)
    requires Contract(env.resolve) && Conclude(env, fact, asOf, p, complete).Ok?
    ensures Conclude(env, fact, asOf, p, complete).value.versions == p.versions
  {
    hide BuildSnapshot, SortRows, NewRows, Missing, AllEdges, Unrecorded;
  }

  /** And so do the two preparations, unless both of them fail. */
  lemma PreparationsAgreeIff(db: Database, env: Env, facts: seq<Fact>, scope: P.Scope, fact: Fact, asOf: int)
    requires Contract(env.resolve) && Fits(db, facts, asOf) && fact in facts
    ensures var a, b := Prepare(db, env, scope, fact, asOf, Some(BatchPrefix(db, facts, scope, fact, asOf))),
                        Prepare(db, env, scope, fact, asOf, None);
      a == b <==> Within(db, fact) || (a.Err? && b.Err?)
  {
    if Within(db, fact) {
      BatchAgrees(db, env, facts, scope, fact, asOf);
    } else {
      var p, q := BatchPrefix(db, facts, scope, fact, asOf), SinglePrefix(db, scope, fact, asOf);
      PrefixesDiffer(db, facts, scope, fact, asOf);
      hide BatchPrefix, SinglePrefix, Conclude, Complete, Fits, Within;
      var c, d := Complete(p.versions, p.conflicts, asOf), Complete(q.versions, q.conflicts, asOf);
      if Conclude(env, fact, asOf, p, c).Ok? { ConclusionKeepsVersions(env, fact, asOf, p, c); }
      if Conclude(env, fact, asOf, q, d).Ok? { ConclusionKeepsVersions(env, fact, asOf, q, d); }
    }
  }

  lemma PrefixesDiffer(db: Database, facts: seq<Fact>, scope: P.Scope, fact: Fact, asOf: int)
    requires Fits(db, facts, asOf) && fact in facts && !Within(db, fact)
    ensures BatchPrefix(db, facts, scope, fact, asOf).versions != SinglePrefix(db, scope, fact, asOf).versions
  {
    ShareOfVersions(db, facts, fact);
    VersionsWithin(db, fact);
    hide VersionsThrough, VersionsOf, BatchVersions, BatchConflicts, BatchAccess, AccessFor, MaxRevision;
  }

  const FACT := Fact("f", "t", 1)

  const EARLY := Version(seq(ID_LENGTH, _ => '0'), "f", 1, "s", "human_statement", "e", Value("number", "0"), "")

  const LATE := Version(seq(ID_LENGTH, _ => '1'), "f", 2, "s", "human_statement", "g", Value("number", "1"), "")

  /** A fact at revision 1 with a version beyond it: the batch prepares it with both versions, the simple path with one. */
  lemma LaterVersionSeparates(env: Env, scope: P.Scope, asOf: int)
    requires Contract(env.resolve)
    ensures var db := Database([EARLY, LATE], [], [], [], map[]);
      && Fits(db, [FACT], asOf)
      && var a, b := Prepare(db, env, scope, FACT, asOf, Some(BatchPrefix(db, [FACT], scope, FACT, asOf))),
                     Prepare(db, env, scope, FACT, asOf, None);
         a.Ok? && b.Ok? && a.value.versions == [EARLY, LATE] && b.value.versions == [EARLY]
  {
    var db := Database([EARLY, LATE], [], [], [], map[]);
    assert FACT in [FACT] && [FACT][1..] == [] && Revisions([FACT][1..]) == 0;
    FilterTwo((v: Version) => v.factId in Ids([FACT]), EARLY, LATE);
    FilterTwo((v: Version) => v.factId == FACT.id && v.revision <= FACT.revision, EARLY, LATE);
    FilterTwo((v: Version) => v.factId == FACT.id, EARLY, LATE);
    hide Conclude, BuildSnapshot;
    var p, q := BatchPrefix(db, [FACT], scope, FACT, asOf), SinglePrefix(db, scope, FACT, asOf);
    assert p.versions == [EARLY, LATE] && q.versions == [EARLY] && p.event.None? && q.event.None?;
    WithoutEvent(env, FACT, asOf, p, Complete(p.versions, p.conflicts, asOf));
    WithoutEvent(env, FACT, asOf, q, Complete(q.versions, q.conflicts, asOf));
  }

  lemma WithoutEvent(env: Env, fact: Fact, asOf: int, p: Prefix, complete: bool)
    requires Contract(env.resolve) && p.event.None?
    ensures Conclude(env, fact, asOf, p, complete).Ok? && Conclude(env, fact, asOf, p, complete).value.versions == p.versions
  {
    hide BuildSnapshot, SortRows, NewRows, Missing, AllEdges, Unrecorded;
  }

  // ---------- new conflicts ----------

  /** New conflicts are one row per missing pair, numbered consecutively after the last stored one. */
  lemma {:induction false} NewRowsAre(fact: Fact, asOf: int, pairs: seq<Pair>, through: nat, freshId: nat -> string)
    ensures var rows := NewRows(fact, asOf, pairs, through, freshId);
      |rows| == |pairs| && forall i :: 0 <= i < |pairs| ==>
        rows[i] == Conflict(freshId(through + 1 + i), fact.id, pairs[i], through + 1 + i, asOf)
  {
    if pairs != [] {
      NewRowsAre(fact, asOf, pairs[1..], through + 1, freshId);
    }
  }

  lemma {:induction false} MaxRevisionIs(conflicts: seq<Conflict>)
    ensures forall c :: c in conflicts ==> c.revision <= MaxRevision(conflicts)
  {
    if conflicts != [] {
      MaxRevisionIs(conflicts[1..]);
    }
  }

  /** What preparing a fact adds: rows under numbers above every stored one, for pairs that are not stored yet. */
  lemma NewConflictsAreNew(env: Env, fact: Fact, asOf: int, p: Prefix)
    requires Contract(env.resolve) && Conclude(env, fact, asOf, p, true).Ok? && p.through == MaxRevision(p.conflicts)
    ensures var r := Conclude(env, fact, asOf, p, true).value;
      && r.through == p.through + |r.newConflicts|
      && (forall i :: 0 <= i < |r.newConflicts| ==> r.newConflicts[i].revision == p.through + 1 + i)
      && (forall c, d :: c in p.conflicts && d in r.newConflicts ==> c.revision < d.revision && c.pair != d.pair)
  {
    MaxRevisionIs(p.conflicts);
    var snapshot := BuildSnapshot(fact, asOf, ResolverPolicy(p.event), p.versions, p.conflicts, p.access, true);
    var groups := Unrecorded(env.resolve(snapshot).conflicts);
    GroupsKnown(env, snapshot);
    if p.event.Some? && groups != [] {
      var edges := AllEdges(ValuesOf(p.versions), groups);
      var pairs := Missing(edges, PairsOf(p.conflicts));
      MissingIs(edges, PairsOf(p.conflicts));
      NewRowsAre(fact, asOf, pairs, p.through, env.freshId);
      hide Missing, AllEdges, NewRows, SortRows, BuildSnapshot, ValuesOf, MaxRevision;
      var rows := NewRows(fact, asOf, pairs, p.through, env.freshId);
      forall c, d | c in p.conflicts && d in rows
        ensures c.revision < d.revision && c.pair != d.pair
      {
        PairIn(p.conflicts, c);
        var i :| 0 <= i < |rows| && rows[i] == d;
        assert pairs[i] in pairs;
      }
    }
  }

  lemma {:induction false} PairIn(conflicts: seq<Conflict>, c: Conflict)
    requires c in conflicts
    ensures c.pair in PairsOf(conflicts)
  {
    if c != conflicts[0] {
      PairIn(conflicts[1..], c);
    }
  }

  lemma {:induction false} PairFrom(conflicts: seq<Conflict>, p: Pair)
    requires p in PairsOf(conflicts)
    ensures exists c :: c in conflicts && c.pair == p
  {
    if p != conflicts[0].pair {
      PairFrom(conflicts[1..], p);
    }
  }

  lemma {:induction false} InsertRowMembers(c: Conflict, rows: seq<Conflict>, before: (string, string) -> bool, x: Conflict)
    ensures x in InsertRow(c, rows, before) <==> x == c || x in rows
  {
    if rows != [] {
      InsertRowMembers(c, rows[1..], before, x);
    }
  }

  lemma {:induction false} SortRowsMembers(rows: seq<Conflict>, before: (string, string) -> bool, x: Conflict)
    ensures x in SortRows(rows, before) <==> x in rows
  {
    if rows != [] {
      SortRowsMembers(rows[1..], before, x);
      InsertRowMembers(rows[0], SortRows(rows[1..], before), before, x);
    }
  }

  /** Preparing once more, with the new conflicts stored and the same groups found, adds nothing. */
  lemma PreparingTwiceAddsNothing(env: Env, fact: Fact, asOf: int, p: Prefix, again: Prefix)
    requires Contract(env.resolve) && Conclude(env, fact, asOf, p, true).Ok?
    requires again.versions == p.versions && again.event == p.event
    requires again.conflicts == Conclude(env, fact, asOf, p, true).value.conflicts
    requires Unrecorded(env.resolve(BuildSnapshot(fact, asOf, ResolverPolicy(p.event), p.versions, again.conflicts, again.access, true)).conflicts)
          == Unrecorded(env.resolve(BuildSnapshot(fact, asOf, ResolverPolicy(p.event), p.versions, p.conflicts, p.access, true)).conflicts)
    ensures Conclude(env, fact, asOf, again, true).Ok? && Conclude(env, fact, asOf, again, true).value.newConflicts == []
  {
    var snapshot := BuildSnapshot(fact, asOf, ResolverPolicy(p.event), p.versions, p.conflicts, p.access, true);
    var groups := Unrecorded(env.resolve(snapshot).conflicts);
    GroupsKnown(env, snapshot);
    if p.event.Some? && groups != [] {
      var edges := AllEdges(ValuesOf(p.versions), groups);
      var stored := PairsOf(p.conflicts);
      var pairs := Missing(edges, stored);
      var rows := NewRows(fact, asOf, pairs, p.through, env.freshId);
      NewRowsAre(fact, asOf, pairs, p.through, env.freshId);
      hide Missing, AllEdges, NewRows, SortRows, ValuesOf, Unrecorded;
      forall q | q in stored || q in pairs
        ensures q in PairsOf(again.conflicts)
      {
        if q in stored {
          PairFrom(p.conflicts, q);
          var c :| c in p.conflicts && c.pair == q;
          SortRowsMembers(p.conflicts + rows, env.before, c);
          PairIn(again.conflicts, c);
        } else {
          var i :| 0 <= i < |pairs| && pairs[i] == q;
          assert rows[i] in rows;
          SortRowsMembers(p.conflicts + rows, env.before, rows[i]);
          PairIn(again.conflicts, rows[i]);
        }
      }
      SecondPreparationAddsNothing(edges, stored, PairsOf(again.conflicts));
    }
  }
}
