/** The checks by which a recorded reconciliation request is recognised as proof of a conflict seen now. They are
    counts, inclusions and sums over rows as they come from the database; nothing is assumed of the rows. */
module MilestoneProof {
  import opened Wrappers

  const MAX_VERSIONS: int := 1000
  const MAX_TARGETS: int := 51
  const MAX_BYTES: int := 4_194_304

  datatype Header = Header(sealed: bool, complete: bool, conflicting: bool, milestoneId: nat, ruleRevision: nat,
                           targetCount: int, requiredLinkCount: int, versionCount: int, evidenceCount: int,
                           conflictCount: int, contributorCount: int, bytes: int)

  datatype Target = Target(id: nat, assessment: Option<nat>)

  datatype ChildSize = ChildSize(id: nat, bytes: int)

  datatype Child = Child(id: nat, factId: nat, sealed: bool, complete: bool, versionCount: int, conflictCount: int,
                         policyThrough: Option<int>, conflictThrough: Option<int>)

  datatype Source = Source(id: nat, factId: nat, humanStatement: bool)

  datatype Version = Version(assessment: nat, factId: nat, versionId: nat, ownId: nat, ownFactId: nat, sourceId: nat,
                             humanConfirmed: bool, source: Source)

  datatype Conflict = Conflict(assessment: nat, factId: nat)

  datatype Contributor = Contributor(targetRow: nat, versionId: nat)

  datatype Access = Access(sourceId: nat, factId: nat, available: bool, readers: seq<string>)

  /** A key of a row: the assessment and the fact it belongs to. */
  type Key = (nat, nat)

  datatype Graph = Graph(header: Header, targets: seq<Target>, sizes: seq<ChildSize>, children: seq<Child>,
                         versions: seq<Version>, conflicts: seq<Conflict>, contributors: seq<Contributor>,
                         access: seq<Access>)

  // ---------- counting ----------

  function Count<T(==)>(s: seq<T>, x: T): nat {
    if s == [] then 0 else (if s[0] == x then 1 else 0) + Count(s[1..], x)
  }

  function ToSet<T>(s: seq<T>): set<T> { set x | x in s }

  /** For every element of one list, how often it occurs in the other, all added up. */
  function Pairs<T(==)>(a: seq<T>, b: seq<T>): nat {
    if a == [] then 0 else Count(b, a[0]) + Pairs(a[1..], b)
  }

  lemma {:induction false} PairsRight<T>(a: seq<T>, b: seq<T>)
    requires b != []
    ensures Pairs(a, b) == Count(a, b[0]) + Pairs(a, b[1..])
  {
    if a != [] {
      PairsRight(a[1..], b);
    }
  }

  /** Counting pairs from either side gives the same. */
  lemma {:induction false} PairsSymmetric<T>(a: seq<T>, b: seq<T>)
    ensures Pairs(a, b) == Pairs(b, a)
  {
    if b == [] {
      NoPairs(a);
    } else {
      PairsRight(a, b);
      PairsSymmetric(a, b[1..]);
    }
  }

  lemma {:induction false} NoPairs<T>(a: seq<T>)
    ensures Pairs(a, []) == 0
  {
    if a != [] {
      NoPairs(a[1..]);
    }
  }

  lemma {:induction false} CountPositive<T>(s: seq<T>, x: T)
    ensures Count(s, x) > 0 <==> x in s
  {
    if s != [] {
      CountPositive(s[1..], x);
    }
  }

  lemma {:induction false} CountDistinct<T>(s: seq<T>, x: T)
    requires Distinct(s)
    ensures Count(s, x) <= 1
  {
    if s != [] {
      CountDistinct(s[1..], x);
      CountPositive(s[1..], x);
    }
  }

  /** In a list without repetition at most one partner is found for each element, and one for each only if all are there. */
  lemma {:induction false} AllMatched<T>(a: seq<T>, b: seq<T>)
    requires Distinct(b)
    ensures Pairs(a, b) <= |a|
    ensures Pairs(a, b) == |a| ==> forall x :: x in a ==> x in b
  {
    if a != [] {
      AllMatched(a[1..], b);
      CountDistinct(b, a[0]);
      CountPositive(b, a[0]);
    }
  }

  /** A list has no more different elements than elements, and as many only if none repeats. */
  lemma {:induction false} SetSize<T>(s: seq<T>)
    ensures |ToSet(s)| <= |s|
    ensures |ToSet(s)| == |s| <==> Distinct(s)
  {
    if s != [] {
      SetSize(s[1..]);
      assert ToSet(s) == ToSet(s[1..]) + {s[0]};
      if s[0] in s[1..] {
        assert ToSet(s) == ToSet(s[1..]);
        assert !Distinct(s);
      } else if Distinct(s[1..]) {
        assert forall i, j :: 0 <= i < j < |s| ==> s[i] != s[j] by {
          assert forall j :: 0 < j < |s| ==> s[j] == s[1..][j - 1];
        }
      } else {
        var i, j :| 0 <= i < j < |s[1..]| && s[1..][i] == s[1..][j];
        assert s[i + 1] == s[j + 1];
      }
    }
  }

  lemma SubsetOfSameSize<T>(a: set<T>, b: set<T>)
    requires a <= b && |a| >= |b|
    ensures a == b
  {
    var rest := b - a;
    assert b == a + rest;
    assert |b| == |a| + |rest|;
  }

  // ---------- the checks ----------

  function ChildIds(cs: seq<Child>): seq<nat> { if cs == [] then [] else [cs[0].id] + ChildIds(cs[1..]) }

  function ChildKeys(cs: seq<Child>): seq<Key> { if cs == [] then [] else [(cs[0].id, cs[0].factId)] + ChildKeys(cs[1..]) }

  function SizeIds(ss: seq<ChildSize>): seq<nat> { if ss == [] then [] else [ss[0].id] + SizeIds(ss[1..]) }

  function Assessments(ts: seq<Target>): seq<Option<nat>> { if ts == [] then [] else [ts[0].assessment] + Assessments(ts[1..]) }

  function VersionKeys(vs: seq<Version>): seq<Key> {
    if vs == [] then [] else [(vs[0].assessment, vs[0].factId)] + VersionKeys(vs[1..])
  }

  function ConflictKeys(cs: seq<Conflict>): seq<Key> {
    if cs == [] then [] else [(cs[0].assessment, cs[0].factId)] + ConflictKeys(cs[1..])
  }

  function SourceIds(vs: seq<Version>): seq<nat> { if vs == [] then [] else [vs[0].sourceId] + SourceIds(vs[1..]) }

  function AccessIds(rows: seq<Access>): seq<nat> { if rows == [] then [] else [rows[0].sourceId] + AccessIds(rows[1..]) }

  function Bytes(ss: seq<ChildSize>): int { if ss == [] then 0 else ss[0].bytes + Bytes(ss[1..]) }

  function VersionTotal(cs: seq<Child>): int { if cs == [] then 0 else cs[0].versionCount + VersionTotal(cs[1..]) }

  function ConflictTotal(cs: seq<Child>): int { if cs == [] then 0 else cs[0].conflictCount + ConflictTotal(cs[1..]) }

  predicate AtMost(n: Option<int>, limit: int) { n.Some? ==> n.value <= limit }

  predicate HeaderFits(h: Header, milestoneId: nat, ruleRevision: nat) {
    && h.sealed && h.complete && h.conflicting && h.milestoneId == milestoneId && h.ruleRevision == ruleRevision
    && 2 <= h.targetCount <= MAX_TARGETS && h.requiredLinkCount == h.targetCount - 1
    && 2 <= h.versionCount <= MAX_VERSIONS && h.evidenceCount == h.versionCount
    && 0 <= h.conflictCount <= MAX_VERSIONS && 2 <= h.contributorCount <= MAX_VERSIONS && 1 <= h.bytes <= MAX_BYTES
  }

  predicate ChildFits(c: Child) {
    && c.sealed && c.complete && 1 <= c.versionCount <= MAX_VERSIONS && 0 <= c.conflictCount <= MAX_VERSIONS
    && AtMost(c.policyThrough, MAX_VERSIONS) && AtMost(c.conflictThrough, MAX_VERSIONS)
  }

  predicate TargetsFit(g: Graph) {
    && |g.targets| == g.header.targetCount && |g.children| == |g.targets| && |g.sizes| == |g.children|
    && (forall s :: s in g.sizes ==> 1 <= s.bytes <= MAX_BYTES) && g.header.bytes + Bytes(g.sizes) <= MAX_BYTES
    && |ToSet(ChildIds(g.children))| == |g.children|
    && |ToSet(SizeIds(g.sizes))| == |g.children|
    && (forall s :: s in g.sizes ==> s.id in ChildIds(g.children))
    && (forall t :: t in g.targets ==> t.assessment.Some? && t.assessment.value in ChildIds(g.children))
    && |ToSet(Assessments(g.targets))| == |g.children|
    && (forall c :: c in g.children ==> ChildFits(c))
    && VersionTotal(g.children) == g.header.versionCount && ConflictTotal(g.children) == g.header.conflictCount
  }

  predicate RowsFit(g: Graph) {
    && |g.versions| == g.header.versionCount && |g.conflicts| == g.header.conflictCount
    && |g.contributors| == g.header.contributorCount
    && |g.versions| <= MAX_VERSIONS && |g.conflicts| <= MAX_VERSIONS && |g.contributors| <= MAX_VERSIONS
    && (forall c :: c in g.children ==>
          && Count(VersionKeys(g.versions), (c.id, c.factId)) == c.versionCount
          && Count(ConflictKeys(g.conflicts), (c.id, c.factId)) == c.conflictCount)
    && (forall v :: v in g.versions ==>
          && v.versionId == v.ownId && v.factId == v.ownFactId && v.humanConfirmed && v.source.id == v.sourceId
          && v.source.factId == v.factId && v.source.humanStatement)
    && (forall r :: r in g.contributors ==>
          && (exists t :: t in g.targets && t.id == r.targetRow)
          && (exists v :: v in g.versions && v.versionId == r.versionId))
  }

  function FirstAccess(rows: seq<Access>, sourceId: nat): Option<Access> {
    if rows == [] then None else if rows[0].sourceId == sourceId then Some(rows[0]) else FirstAccess(rows[1..], sourceId)
  }

  predicate Readable(a: Access, factId: nat, subject: string) {
    a.factId == factId && a.available && a.readers == [subject]
  }

  predicate AccessFits(g: Graph, subject: string) {
    && |g.access| == |ToSet(SourceIds(g.versions))|
    && forall v :: v in g.versions ==>
         FirstAccess(g.access, v.sourceId).Some? && Readable(FirstAccess(g.access, v.sourceId).value, v.factId, subject)
  }

  /** All checks before the database's own validator is asked. */
  predicate Accepts(g: Graph, milestoneId: nat, ruleRevision: nat, subject: string) {
    HeaderFits(g.header, milestoneId, ruleRevision) && TargetsFit(g) && RowsFit(g) && AccessFits(g, subject)
  }

  // ---------- what they imply ----------

  lemma {:induction false} AssessmentsAt(ts: seq<Target>)
    ensures |Assessments(ts)| == |ts| && forall i :: 0 <= i < |ts| ==> Assessments(ts)[i] == ts[i].assessment
  {
    if ts != [] { AssessmentsAt(ts[1..]); }
  }

  lemma {:induction false} ChildIdsAt(cs: seq<Child>)
    ensures |ChildIds(cs)| == |ChildKeys(cs)| == |cs|
    ensures forall i :: 0 <= i < |cs| ==> ChildIds(cs)[i] == cs[i].id && ChildKeys(cs)[i] == (cs[i].id, cs[i].factId)
  {
    if cs != [] { ChildIdsAt(cs[1..]); }
  }

  lemma {:induction false} VersionKeysAt(vs: seq<Version>)
    ensures |VersionKeys(vs)| == |SourceIds(vs)| == |vs|
    ensures forall i :: 0 <= i < |vs| ==> VersionKeys(vs)[i] == (vs[i].assessment, vs[i].factId) && SourceIds(vs)[i] == vs[i].sourceId
  {
    if vs != [] { VersionKeysAt(vs[1..]); }
  }

  lemma {:induction false} ConflictKeysAt(cs: seq<Conflict>)
    ensures |ConflictKeys(cs)| == |cs| && forall i :: 0 <= i < |cs| ==> ConflictKeys(cs)[i] == (cs[i].assessment, cs[i].factId)
  {
    if cs != [] { ConflictKeysAt(cs[1..]); }
  }

  lemma {:induction false} AccessIdsAt(rows: seq<Access>)
    ensures |AccessIds(rows)| == |rows| && forall i :: 0 <= i < |rows| ==> AccessIds(rows)[i] == rows[i].sourceId
  {
    if rows != [] { AccessIdsAt(rows[1..]); }
  }

  lemma ChildrenDistinct(g: Graph)
    requires TargetsFit(g)
    ensures Distinct(ChildIds(g.children)) && Distinct(ChildKeys(g.children))
  {
    ChildIdsAt(g.children);
    SetSize(ChildIds(g.children));
  }

  /** The i-th target names the j-th child assessment. */
  ghost predicate Names(g: Graph, i: nat, j: nat) {
    i < |g.targets| && j < |g.children| && g.targets[i].assessment == Some(g.children[j].id)
  }

  ghost predicate HasChild(g: Graph, i: nat) { exists j: nat :: Names(g, i, j) }

  ghost predicate HasTarget(g: Graph, j: nat) { exists i: nat :: Names(g, i, j) }

  function AllSome(ids: seq<nat>): seq<Option<nat>> { if ids == [] then [] else [Some(ids[0])] + AllSome(ids[1..]) }

  lemma {:induction false} AllSomeIs(ids: seq<nat>)
    ensures |AllSome(ids)| == |ids| && forall a :: a in AllSome(ids) <==> a.Some? && a.value in ids
  {
    if ids != [] { AllSomeIs(ids[1..]); }
  }

  /** The assessments the targets name are the children, each named once. */
  lemma NamesAreChildren(g: Graph)
    requires TargetsFit(g)
    ensures Distinct(Assessments(g.targets))
    ensures forall a :: a in Assessments(g.targets) <==> a.Some? && a.value in ChildIds(g.children)
  {
    var ids, named := ChildIds(g.children), Assessments(g.targets);
    ChildIdsAt(g.children);
    AssessmentsAt(g.targets);
    AllSomeIs(ids);
    SetSize(named);
    SetSize(AllSome(ids));
    forall a | a in named
      ensures a in AllSome(ids)
    {
      var i :| 0 <= i < |named| && named[i] == a;
      assert g.targets[i] in g.targets;
    }
    SubsetOfSameSize(ToSet(named), ToSet(AllSome(ids)));
    assert forall a :: a in named <==> a in ToSet(AllSome(ids));
  }

  lemma TargetHasChild(g: Graph, i: nat)
    requires TargetsFit(g) && i < |g.targets|
    ensures HasChild(g, i)
  {
    NamesAreChildren(g);
    ChildIdsAt(g.children);
    AssessmentsAt(g.targets);
    hide TargetsFit;
    assert Assessments(g.targets)[i] in Assessments(g.targets);
    var j :| 0 <= j < |ChildIds(g.children)| && ChildIds(g.children)[j] == g.targets[i].assessment.value;
    assert Names(g, i, j);
  }

  lemma ChildHasTarget(g: Graph, j: nat)
    requires TargetsFit(g) && j < |g.children|
    ensures HasTarget(g, j)
  {
    NamesAreChildren(g);
    ChildIdsAt(g.children);
    AssessmentsAt(g.targets);
    hide TargetsFit;
    assert ChildIds(g.children)[j] in ChildIds(g.children);
    var i :| 0 <= i < |Assessments(g.targets)| && Assessments(g.targets)[i] == Some(g.children[j].id);
    assert Names(g, i, j);
  }

  lemma OnlyOneEach(g: Graph, i: nat, j: nat, k: nat, l: nat)
    requires TargetsFit(g) && Names(g, i, j) && Names(g, k, l)
    ensures i == k <==> j == l
  {
    NamesAreChildren(g);
    ChildrenDistinct(g);
    ChildIdsAt(g.children);
    AssessmentsAt(g.targets);
    hide TargetsFit;
    assert Assessments(g.targets)[i] == Some(ChildIds(g.children)[j]);
    assert Assessments(g.targets)[k] == Some(ChildIds(g.children)[l]);
  }

  /** Targets and child assessments correspond one to one. */
  ghost predicate Correspond(g: Graph) {
    && (forall i: nat :: i < |g.targets| ==> HasChild(g, i))
    && (forall j: nat :: j < |g.children| ==> HasTarget(g, j))
    && (forall i: nat, j: nat, k: nat, l: nat :: Names(g, i, j) && Names(g, k, l) ==> (i == k <==> j == l))
  }

  lemma TargetsAndChildrenCorrespond(g: Graph)
    requires TargetsFit(g)
    ensures Correspond(g)
  {
    hide TargetsFit;
    forall i: nat | i < |g.targets|
      ensures HasChild(g, i)
    {
      TargetHasChild(g, i);
    }
    forall j: nat | j < |g.children|
      ensures HasTarget(g, j)
    {
      ChildHasTarget(g, j);
    }
    hide Names;
    forall i: nat, j: nat, k: nat, l: nat | Names(g, i, j) && Names(g, k, l)
      ensures i == k <==> j == l
    {
      OnlyOneEach(g, i, j, k, l);
    }
  }

  lemma {:induction false} PairsAreTotals(cs: seq<Child>, versions: seq<Key>, conflicts: seq<Key>)
    requires forall c :: c in cs ==> Count(versions, (c.id, c.factId)) == c.versionCount && Count(conflicts, (c.id, c.factId)) == c.conflictCount
    ensures Pairs(ChildKeys(cs), versions) == VersionTotal(cs) && Pairs(ChildKeys(cs), conflicts) == ConflictTotal(cs)
  {
    if cs != [] {
      PairsAreTotals(cs[1..], versions, conflicts);
    }
  }

  /** The version rows and the conflict rows are divided among the children: each row belongs to exactly one child,
      of its fact, and each child has exactly as many as it says. */
  lemma RowsArePartitioned(g: Graph)
    requires TargetsFit(g) && RowsFit(g)
    ensures forall v :: v in g.versions ==> OneOwner(g, v.assessment, v.factId)
    ensures forall c :: c in g.conflicts ==> OneOwner(g, c.assessment, c.factId)
  {
    ChildIdsAt(g.children);
    ChildrenDistinct(g);
    VersionKeysAt(g.versions);
    ConflictKeysAt(g.conflicts);
    var keys, versions, conflicts := ChildKeys(g.children), VersionKeys(g.versions), ConflictKeys(g.conflicts);
    PairsAreTotals(g.children, versions, conflicts);
    PairsSymmetric(keys, versions);
    PairsSymmetric(keys, conflicts);
    AllMatched(versions, keys);
    AllMatched(conflicts, keys);
    forall k: Key | k in keys
      ensures OneOwner(g, k.0, k.1)
    {
      Owner(g, k);
    }
    forall v | v in g.versions
      ensures (v.assessment, v.factId) in versions
    {
      var i :| 0 <= i < |g.versions| && g.versions[i] == v;
      assert versions[i] == (v.assessment, v.factId);
    }
    forall c | c in g.conflicts
      ensures (c.assessment, c.factId) in conflicts
    {
      var i :| 0 <= i < |g.conflicts| && g.conflicts[i] == c;
      assert conflicts[i] == (c.assessment, c.factId);
    }
  }

  /** Exactly one child has this assessment, and it is about this fact. */
  ghost predicate OneOwner(g: Graph, assessment: nat, factId: nat) {
    exists j :: 0 <= j < |g.children| && g.children[j].id == assessment && g.children[j].factId == factId
      && forall k :: 0 <= k < |g.children| && g.children[k].id == assessment ==> k == j
  }

  lemma Owner(g: Graph, key: Key)
    requires TargetsFit(g) && key in ChildKeys(g.children)
    ensures OneOwner(g, key.0, key.1)
  {
    ChildIdsAt(g.children);
    ChildrenDistinct(g);
    hide TargetsFit;
    var j :| 0 <= j < |g.children| && ChildKeys(g.children)[j] == key;
    forall k | 0 <= k < |g.children| && g.children[k].id == key.0
      ensures k == j
    {
      assert ChildIds(g.children)[k] == ChildIds(g.children)[j];
    }
  }

  lemma {:induction false} FirstAccessIs(rows: seq<Access>, sourceId: nat)
    ensures FirstAccess(rows, sourceId).Some? ==> FirstAccess(rows, sourceId).value in rows && FirstAccess(rows, sourceId).value.sourceId == sourceId
  {
    if rows != [] { FirstAccessIs(rows[1..], sourceId); }
  }

  /** An access row that lets the reader read a source of some version of its fact. */
  ghost predicate Serves(g: Graph, a: Access, subject: string) {
    && a.available && a.readers == [subject]
    && exists v :: v in g.versions && v.sourceId == a.sourceId && v.factId == a.factId
  }

  /** Every source of a version has exactly one access row, there is no other access row, and the one there is lets
      the reader read. */
  lemma AccessIsExact(g: Graph, subject: string)
    requires AccessFits(g, subject)
    ensures Distinct(AccessIds(g.access)) && ToSet(AccessIds(g.access)) == ToSet(SourceIds(g.versions))
    ensures forall a :: a in g.access ==> Serves(g, a, subject)
  {
    VersionKeysAt(g.versions);
    AccessIdsAt(g.access);
    var ids, sources := AccessIds(g.access), SourceIds(g.versions);
    assert ToSet(sources) <= ToSet(ids) by {
      forall s | s in sources
        ensures s in ids
      {
        var i :| 0 <= i < |sources| && sources[i] == s;
        assert g.versions[i] in g.versions;
        FirstAccessIs(g.access, s);
        var k :| 0 <= k < |g.access| && g.access[k] == FirstAccess(g.access, s).value;
        assert ids[k] == s;
      }
    }
    SetSize(ids);
    SubsetOfSameSize(ToSet(sources), ToSet(ids));
    forall a | a in g.access
      ensures Serves(g, a, subject)
    {
      var k :| 0 <= k < |g.access| && g.access[k] == a;
      assert ids[k] in ToSet(sources);
      var i :| 0 <= i < |sources| && sources[i] == a.sourceId;
      var v := g.versions[i];
      assert v in g.versions;
      FirstAccessIs(g.access, a.sourceId);
      var first := FirstAccess(g.access, a.sourceId).value;
      var m :| 0 <= m < |g.access| && g.access[m] == first;
      assert ids[m] == ids[k];
    }
  }

  // ---------- the decision ----------

  datatype Request = Request(sealed: bool, isOpen: bool, identity: string, createdAt: int, graph: Graph)

  datatype Verdict = Recorded | NotRecorded | Refused

  /** What is answered for a contributor identity, given the request found under its hash, if any. */
  function Decide(conflicting: bool, identity: string, identityFits: bool, found: Option<Request>, asOf: int,
                  milestoneId: nat, ruleRevision: nat, subject: string, nativelyValid: bool): Verdict
  {
    if !conflicting || identity == "" || !identityFits then Refused
    else if found.None? then NotRecorded
    else
      var r := found.value;
      if !r.sealed || !r.isOpen || r.identity != identity || r.createdAt > asOf then Refused
      else if !Accepts(r.graph, milestoneId, ruleRevision, subject) || !nativelyValid then Refused
      else Recorded
  }

  /** A request is reported as recorded only for the exact identity, not before it was made, and on a proof graph
      whose targets, rows and access rows are in order. */
  lemma RecordedIsProven(conflicting: bool, identity: string, identityFits: bool, found: Option<Request>, asOf: int,
                         milestoneId: nat, ruleRevision: nat, subject: string, nativelyValid: bool)
    requires Decide(conflicting, identity, identityFits, found, asOf, milestoneId, ruleRevision, subject, nativelyValid) == Recorded
    ensures found.Some? && found.value.identity == identity && found.value.createdAt <= asOf
    ensures var g := found.value.graph;
      && Correspond(g)
      && (forall v :: v in g.versions ==> OneOwner(g, v.assessment, v.factId))
      && (forall c :: c in g.conflicts ==> OneOwner(g, c.assessment, c.factId))
      && Distinct(AccessIds(g.access)) && ToSet(AccessIds(g.access)) == ToSet(SourceIds(g.versions))
      && (forall a :: a in g.access ==> Serves(g, a, subject))
  {
    var g := found.value.graph;
    assert TargetsFit(g) && RowsFit(g) && AccessFits(g, subject);
    TargetsAndChildrenCorrespond(g);
    RowsArePartitioned(g);
    AccessIsExact(g, subject);
    hide TargetsFit, RowsFit, AccessFits, HeaderFits, Correspond, OneOwner, Serves;
  }
}
