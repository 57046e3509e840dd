/** The validator of the requirement catalogue: references between requirements, criteria, stories and tests, and the
    ancestry of requirements. Files on disk are not looked at. */
module DocValidator {
  import opened Wrappers

  type Id = string

  datatype Requirement = Requirement(id: Id, parent: Option<Id>)

  datatype Criterion = Criterion(id: Id, requirements: seq<Id>, tests: seq<Id>, p0: bool)

  datatype Story = Story(id: Id, requirements: seq<Id>, criteria: seq<Id>)

  datatype Test = Test(id: Id, criteria: seq<Id>)

  /** What is wrong, where and with respect to what. */
  datatype Problem =
    | MissingParent(id: Id)
    | Cyclic(id: Id)
    | EmptyReferences(id: Id)
    | UnknownReference(id: Id, to: Id)
    | DuplicateReferences(id: Id)
    | NotCovered(story: Id, requirement: Id)
    | Unowned(criterion: Id)
    | NotReferenced(test: Id, criterion: Id)
    | NoReverseOwner(test: Id, criterion: Id)

  const EXTERNAL: set<Id> := {"OPEN_SOURCE_POLICY"}

  // ---------- ancestry ----------

  type Catalogue = map<Id, Requirement>

  /** The n-th ancestor of a requirement, as long as the chain stays in the catalogue. */
  function Ancestor(reqs: Catalogue, id: Id, n: nat): Option<Id> {
    if n == 0 then Some(id)
    else
      var a := Ancestor(reqs, id, n - 1);
      if a.None? || a.value !in reqs then None else reqs[a.value].parent
  }

  /** The chain of parents leaves the catalogue. */
  ghost predicate Leaves(reqs: Catalogue, id: Id) {
    exists n: nat :: Left(reqs, id, n)
  }

  ghost predicate Left(reqs: Catalogue, id: Id, n: nat) {
    Ancestor(reqs, id, n).None? || Ancestor(reqs, id, n).value !in reqs
  }

  lemma {:induction false} AncestorShift(reqs: Catalogue, id: Id, m: nat, n: nat)
    requires Ancestor(reqs, id, m).Some?
    ensures Ancestor(reqs, id, m + n) == Ancestor(reqs, Ancestor(reqs, id, m).value, n)
  {
    if n > 0 {
      AncestorShift(reqs, id, m, n - 1);
    }
  }

  lemma {:induction false} LeftStays(reqs: Catalogue, id: Id, m: nat, n: nat)
    requires m <= n && Left(reqs, id, m)
    ensures Left(reqs, id, n)
  {
    if m < n {
      LeftStays(reqs, id, m, n - 1);
    }
  }

  /** A chain that comes back to an earlier ancestor never leaves. */
  lemma {:induction false} CycleNeverLeaves(reqs: Catalogue, id: Id, m: nat, n: nat, k: nat)
    requires m < n && Ancestor(reqs, id, m).Some? && Ancestor(reqs, id, n) == Ancestor(reqs, id, m)
    requires forall i: nat :: i <= n ==> !Left(reqs, id, i)
    ensures !Left(reqs, id, k)
  {
    if k > n {
      AncestorShift(reqs, id, m, k - n);
      AncestorShift(reqs, id, n, k - n);
      CycleNeverLeaves(reqs, id, m, n, m + (k - n));
    }
  }

  lemma NeverLeaves(reqs: Catalogue, id: Id, m: nat, n: nat)
    requires m < n && Ancestor(reqs, id, m).Some? && Ancestor(reqs, id, n) == Ancestor(reqs, id, m)
    requires forall i: nat :: i <= n ==> !Left(reqs, id, i)
    ensures !Leaves(reqs, id)
  {
    forall k: nat
      ensures !Left(reqs, id, k)
    {
      CycleNeverLeaves(reqs, id, m, n, k);
    }
  }

  lemma HasLeft(reqs: Catalogue, id: Id, n: nat)
    requires Left(reqs, id, n)
    ensures Leaves(reqs, id)
  {
  }

  /** One of the first `n` ancestors, counting the requirement itself. */
  ghost predicate Seen(reqs: Catalogue, id: Id, n: nat, x: Id) {
    exists i: nat :: i < n && Ancestor(reqs, id, i) == Some(x)
  }

  lemma SeenNext(reqs: Catalogue, id: Id, n: nat, x: Id)
    ensures !Seen(reqs, id, 0, x)
    ensures Seen(reqs, id, n + 1, x) <==> Seen(reqs, id, n, x) || Ancestor(reqs, id, n) == Some(x)
  {
    hide Ancestor;
  }

  lemma SeenAgain(reqs: Catalogue, id: Id, n: nat)
    requires Ancestor(reqs, id, n).Some? && Seen(reqs, id, n, Ancestor(reqs, id, n).value)
    requires forall i: nat :: i <= n ==> !Left(reqs, id, i)
    ensures !Leaves(reqs, id)
  {
    hide Left;
    var m: nat :| m < n && Ancestor(reqs, id, m) == Ancestor(reqs, id, n);
    NeverLeaves(reqs, id, m, n);
  }

  /** Walks up from a requirement until the chain leaves the catalogue or comes back to something seen. */
  method HasCycle(reqs: Catalogue, rid: Id) returns (cyclic: bool)
    requires rid in reqs
    ensures cyclic <==> !Leaves(reqs, rid)
  {
    hide Leaves, Seen;
    var chain := {rid};
    var parent := reqs[rid].parent;
    ghost var n: nat := 1;
    forall x
      ensures x in chain <==> Seen(reqs, rid, n, x)
    {
      SeenNext(reqs, rid, 0, x);
    }
    while parent.Some? && parent.value in reqs
      invariant parent == Ancestor(reqs, rid, n)
      invariant forall i: nat :: i < n ==> !Left(reqs, rid, i)
      invariant forall x :: x in chain <==> Seen(reqs, rid, n, x)
      invariant chain <= reqs.Keys
      decreases reqs.Keys - chain
    {
      if parent.value in chain {
        SeenAgain(reqs, rid, n);
        return true;
      }
      forall x
        ensures x in chain + {parent.value} <==> Seen(reqs, rid, n + 1, x)
      {
        SeenNext(reqs, rid, n, x);
      }
      chain := chain + {parent.value};
      parent := reqs[parent.value].parent;
      n := n + 1;
    }
    HasLeft(reqs, rid, n);
    cyclic := false;
  }

  /** No cycle error at all means that ancestry is well-founded: there is a rank that falls from child to parent. */
  ghost predicate WellFounded(reqs: Catalogue, rank: map<Id, nat>) {
    && rank.Keys == reqs.Keys
    && forall id :: id in reqs && reqs[id].parent.Some? && reqs[id].parent.value in reqs ==> rank[reqs[id].parent.value] < rank[id]
  }

  /** The number of steps after which the chain has left. */
  ghost function Depth(reqs: Catalogue, id: Id): (n: nat)
    requires Leaves(reqs, id)
    ensures Left(reqs, id, n) && forall m: nat :: Left(reqs, id, m) ==> n <= m
  {
    var n: nat :| Left(reqs, id, n);
    Least(reqs, id, n)
  }

  ghost function Least(reqs: Catalogue, id: Id, n: nat): (r: nat)
    requires Left(reqs, id, n)
    ensures r <= n && Left(reqs, id, r) && forall m: nat :: Left(reqs, id, m) ==> r <= m
  {
    if n == 0 then 0
    else if Left(reqs, id, n - 1) then Least(reqs, id, n - 1)
    else
      NotBefore(reqs, id, n);
      n
  }

  lemma NotBefore(reqs: Catalogue, id: Id, n: nat)
    requires n > 0 && !Left(reqs, id, n - 1)
    ensures forall m: nat :: Left(reqs, id, m) ==> n <= m
  {
    forall m: nat | Left(reqs, id, m) && m < n
      ensures false
    {
      LeftStays(reqs, id, m, n - 1);
    }
  }

  lemma ParentIsShallower(reqs: Catalogue, id: Id)
    requires id in reqs && reqs[id].parent.Some? && reqs[id].parent.value in reqs
    requires Leaves(reqs, id)
    ensures Leaves(reqs, reqs[id].parent.value) && Depth(reqs, reqs[id].parent.value) < Depth(reqs, id)
  {
    var p, d := reqs[id].parent.value, Depth(reqs, id);
    assert Ancestor(reqs, id, 1) == Some(p) by {
      assert Ancestor(reqs, id, 0) == Some(id);
    }
    assert d > 0;
    AncestorShift(reqs, id, 1, d - 1);
    assert Left(reqs, p, d - 1);
  }

  /** Ancestry is well-founded exactly when no chain of parents goes on for ever. */
  lemma WellFoundedIff(reqs: Catalogue)
    ensures (forall id :: id in reqs ==> Leaves(reqs, id)) <==> exists rank :: WellFounded(reqs, rank)
  {
    if forall id :: id in reqs ==> Leaves(reqs, id) {
      var rank := map id | id in reqs :: Depth(reqs, id);
      forall id | id in reqs && reqs[id].parent.Some? && reqs[id].parent.value in reqs
        ensures rank[reqs[id].parent.value] < rank[id]
      {
        ParentIsShallower(reqs, id);
      }
      assert WellFounded(reqs, rank);
    } else if exists rank :: WellFounded(reqs, rank) {
      var rank :| WellFounded(reqs, rank);
      forall id | id in reqs
        ensures Leaves(reqs, id)
      {
        RankedLeaves(reqs, rank, id);
      }
    }
  }

  lemma {:induction false} RankedLeaves(reqs: Catalogue, rank: map<Id, nat>, id: Id)
    requires WellFounded(reqs, rank) && id in reqs
    ensures Leaves(reqs, id)
    decreases rank[id]
  {
    var parent := reqs[id].parent;
    assert Ancestor(reqs, id, 1) == parent by {
      assert Ancestor(reqs, id, 0) == Some(id);
    }
    if parent.Some? && parent.value in reqs {
      RankedLeaves(reqs, rank, parent.value);
      var n: nat :| Left(reqs, parent.value, n);
      AncestorShift(reqs, id, 1, n);
      assert Left(reqs, id, 1 + n);
    } else {
      assert Left(reqs, id, 1);
    }
  }

  // ---------- references ----------

  predicate RefsOk(values: seq<Id>, valid: set<Id>) {
    && values != []
    && (forall v :: v in values ==> v in valid)
    && forall i, j :: 0 <= i < j < |values| ==> values[i] != values[j]
  }

  /** Complains about an empty list, about each unknown reference, and about repetition. */
  method CheckRefs(id: Id, values: seq<Id>, valid: set<Id>) returns (problems: seq<Problem>)
    ensures problems == [] <==> RefsOk(values, valid)
    ensures forall v :: UnknownReference(id, v) in problems <==> v in values && v !in valid
  {
    problems := [];
    if values == [] { problems := [EmptyReferences(id)]; }
    var k := 0;
    while k < |values|
      invariant k <= |values|
      invariant problems == [] <==> values != [] && forall i :: 0 <= i < k ==> values[i] in valid
      invariant forall v :: UnknownReference(id, v) in problems <==> v in values[..k] && v !in valid
    {
      if values[k] !in valid { problems := problems + [UnknownReference(id, values[k])]; }
      assert values[..k + 1] == values[..k] + [values[k]];
      k := k + 1;
    }
    assert values[..k] == values;
    if exists i, j :: 0 <= i < j < |values| && values[i] == values[j] {
      problems := problems + [DuplicateReferences(id)];
    }
  }

  function CriterionIds(acs: seq<Criterion>): set<Id> { set a | a in acs :: a.id }

  function TestIds(tests: seq<Test>): set<Id> { set t | t in tests :: t.id }

  // ---------- the parts of a sound catalogue ----------

  ghost predicate RequirementOk(reqs: Catalogue, id: Id) {
    id in reqs ==> (reqs[id].parent.Some? ==> reqs[id].parent.value in reqs) && Leaves(reqs, id)
  }

  predicate CriterionOk(a: Criterion, reqs: Catalogue, tests: seq<Test>) {
    RefsOk(a.requirements, reqs.Keys + EXTERNAL) && RefsOk(a.tests, TestIds(tests))
  }

  /** Some criterion of the story states this requirement. */
  predicate Covers(s: Story, acs: seq<Criterion>, rid: Id) {
    exists a :: a in acs && a.id in s.criteria && rid in a.requirements
  }

  predicate StoryOk(s: Story, reqs: Catalogue, acs: seq<Criterion>) {
    && RefsOk(s.requirements, reqs.Keys) && RefsOk(s.criteria, CriterionIds(acs))
    && forall rid :: rid in s.requirements ==> Covers(s, acs, rid)
  }

  predicate Owned(stories: seq<Story>, id: Id) { exists s :: s in stories && id in s.criteria }

  /** A test names exactly the criteria that name it. */
  predicate TestOk(t: Test, acs: seq<Criterion>) {
    && RefsOk(t.criteria, CriterionIds(acs))
    && forall a :: a in acs ==> (a.id in t.criteria <==> t.id in a.tests)
  }

  ghost predicate CatalogueOk(reqs: Catalogue, acs: seq<Criterion>, stories: seq<Story>, tests: seq<Test>) {
    && (forall id :: id in reqs ==> RequirementOk(reqs, id))
    && (forall a :: a in acs ==> CriterionOk(a, reqs, tests))
    && (forall s :: s in stories ==> StoryOk(s, reqs, acs))
    && (forall a :: a in acs && a.p0 ==> Owned(stories, a.id))
    && (forall t :: t in tests ==> TestOk(t, acs))
  }

  method CheckRequirements(reqs: Catalogue, order: seq<Id>) returns (problems: seq<Problem>)
    requires forall id :: id in order <==> id in reqs
    ensures problems == [] <==> forall id :: id in reqs ==> RequirementOk(reqs, id)
    ensures forall id :: id in reqs ==> (Cyclic(id) in problems <==> !Leaves(reqs, id))
  {
    problems := [];
    var k := 0;
    while k < |order|
      invariant k <= |order|
      invariant problems == [] <==> forall i :: 0 <= i < k ==> RequirementOk(reqs, order[i])
      invariant forall id :: Cyclic(id) in problems <==> id in order[..k] && !Leaves(reqs, id)
    {
      var rid := order[k];
      if reqs[rid].parent.Some? && reqs[rid].parent.value !in reqs { problems := problems + [MissingParent(rid)]; }
      var cyclic := HasCycle(reqs, rid);
      if cyclic { problems := problems + [Cyclic(rid)]; }
      assert order[..k + 1] == order[..k] + [rid];
      k := k + 1;
    }
    assert order[..k] == order;
    assert forall id :: id in reqs ==> exists i :: 0 <= i < |order| && order[i] == id;
  }

  method CheckCriteria(reqs: Catalogue, acs: seq<Criterion>, tests: seq<Test>) returns (problems: seq<Problem>)
    ensures problems == [] <==> forall a :: a in acs ==> CriterionOk(a, reqs, tests)
  {
    problems := [];
    var k := 0;
    while k < |acs|
      invariant k <= |acs|
      invariant problems == [] <==> forall i :: 0 <= i < k ==> CriterionOk(acs[i], reqs, tests)
    {
      var r := CheckRefs(acs[k].id, acs[k].requirements, reqs.Keys + EXTERNAL);
      var t := CheckRefs(acs[k].id, acs[k].tests, TestIds(tests));
      problems := problems + r + t;
      k := k + 1;
    }
  }

  method CheckStory(s: Story, reqs: Catalogue, acs: seq<Criterion>) returns (problems: seq<Problem>)
    ensures problems == [] <==> StoryOk(s, reqs, acs)
  {
    var r := CheckRefs(s.id, s.requirements, reqs.Keys);
    var c := CheckRefs(s.id, s.criteria, CriterionIds(acs));
    problems := r + c;
    var k := 0;
    while k < |s.requirements|
      invariant k <= |s.requirements|
      invariant problems == [] <==> r == [] && c == [] && forall i :: 0 <= i < k ==> Covers(s, acs, s.requirements[i])
    {
      if !Covers(s, acs, s.requirements[k]) { problems := problems + [NotCovered(s.id, s.requirements[k])]; }
      k := k + 1;
    }
  }

  method CheckStories(reqs: Catalogue, acs: seq<Criterion>, stories: seq<Story>) returns (problems: seq<Problem>, owned: set<Id>)
    ensures problems == [] <==> forall s :: s in stories ==> StoryOk(s, reqs, acs)
    ensures forall id :: id in owned <==> Owned(stories, id)
  {
    problems, owned := [], {};
    var k := 0;
    while k < |stories|
      invariant k <= |stories|
      invariant problems == [] <==> forall i :: 0 <= i < k ==> StoryOk(stories[i], reqs, acs)
      invariant forall id :: id in owned <==> Owned(stories[..k], id)
    {
      var e := CheckStory(stories[k], reqs, acs);
      problems := problems + e;
      owned := owned + set c | c in stories[k].criteria;
      assert stories[..k + 1] == stories[..k] + [stories[k]];
      k := k + 1;
    }
    assert stories[..k] == stories;
  }

  method CheckOwnership(acs: seq<Criterion>, owned: set<Id>) returns (problems: seq<Problem>)
    ensures problems == [] <==> forall a :: a in acs && a.p0 ==> a.id in owned
  {
    problems := [];
    var k := 0;
    while k < |acs|
      invariant k <= |acs|
      invariant problems == [] <==> forall i :: 0 <= i < k && acs[i].p0 ==> acs[i].id in owned
    {
      if acs[k].p0 && acs[k].id !in owned { problems := problems + [Unowned(acs[k].id)]; }
      k := k + 1;
    }
  }

  /** The two directions are checked separately: from the test's criteria and from all criteria. */
  method CheckTest(t: Test, acs: seq<Criterion>) returns (problems: seq<Problem>)
    requires forall i, j :: 0 <= i < j < |acs| ==> acs[i].id != acs[j].id
    ensures problems == [] <==> TestOk(t, acs)
  {
    problems := CheckRefs(t.id, t.criteria, CriterionIds(acs));
    ghost var known := problems == [];
    var k := 0;
    while k < |t.criteria|
      invariant k <= |t.criteria|
      invariant problems == [] <==> known && forall i :: 0 <= i < k ==> Names(acs, t.criteria[i], t.id)
    {
      if !Names(acs, t.criteria[k], t.id) { problems := problems + [NotReferenced(t.id, t.criteria[k])]; }
      k := k + 1;
    }
    ghost var forth := problems == [];
    k := 0;
    while k < |acs|
      invariant k <= |acs|
      invariant problems == [] <==> forth && forall i :: 0 <= i < k && t.id in acs[i].tests ==> acs[i].id in t.criteria
    {
      if t.id in acs[k].tests && acs[k].id !in t.criteria { problems := problems + [NoReverseOwner(t.id, acs[k].id)]; }
      k := k + 1;
    }
    Converse(t, acs);
  }

  /** The criterion of this name refers to the test. */
  predicate Names(acs: seq<Criterion>, id: Id, test: Id) { exists a :: a in acs && a.id == id && test in a.tests }

  lemma Converse(t: Test, acs: seq<Criterion>)
    requires forall i, j :: 0 <= i < j < |acs| ==> acs[i].id != acs[j].id
    ensures TestOk(t, acs) <==>
              && RefsOk(t.criteria, CriterionIds(acs))
              && (forall i :: 0 <= i < |t.criteria| ==> Names(acs, t.criteria[i], t.id))
              && (forall i :: 0 <= i < |acs| && t.id in acs[i].tests ==> acs[i].id in t.criteria)
  {
    forall a | a in acs
      ensures Names(acs, a.id, t.id) <==> t.id in a.tests
    {
      if Names(acs, a.id, t.id) {
        var b :| b in acs && b.id == a.id && t.id in b.tests;
        assert a == b;
      }
    }
    if TestOk(t, acs) {
      forall i | 0 <= i < |t.criteria|
        ensures Names(acs, t.criteria[i], t.id)
      {
        assert t.criteria[i] in CriterionIds(acs);
        var a :| a in acs && a.id == t.criteria[i];
      }
    }
  }

  method CheckTests(acs: seq<Criterion>, tests: seq<Test>) returns (problems: seq<Problem>)
    requires forall i, j :: 0 <= i < j < |acs| ==> acs[i].id != acs[j].id
    ensures problems == [] <==> forall t :: t in tests ==> TestOk(t, acs)
  {
    problems := [];
    var k := 0;
    while k < |tests|
      invariant k <= |tests|
      invariant problems == [] <==> forall i :: 0 <= i < k ==> TestOk(tests[i], acs)
    {
      var e := CheckTest(tests[k], acs);
      problems := problems + e;
      k := k + 1;
    }
  }

  /** The whole validation over indexes by id: there are no problems exactly when the catalogue is sound. */
  method Validate(reqs: Catalogue, order: seq<Id>, acs: seq<Criterion>, stories: seq<Story>, tests: seq<Test>)
    returns (problems: seq<Problem>)
    requires forall id :: id in order <==> id in reqs
    requires forall i, j :: 0 <= i < j < |acs| ==> acs[i].id != acs[j].id
    ensures problems == [] <==> CatalogueOk(reqs, acs, stories, tests)
  {
    hide RequirementOk, CriterionOk, StoryOk, TestOk, Owned;
    var r := CheckRequirements(reqs, order);
    var a := CheckCriteria(reqs, acs, tests);
    var s, owned := CheckStories(reqs, acs, stories);
    var o := CheckOwnership(acs, owned);
    var t := CheckTests(acs, tests);
    problems := r + a + s + o + t;
  }

  /** In a sound catalogue criteria and tests refer to each other in both directions, and ancestry is well-founded. */
  lemma SoundCatalogue(reqs: Catalogue, acs: seq<Criterion>, stories: seq<Story>, tests: seq<Test>)
    requires CatalogueOk(reqs, acs, stories, tests)
    ensures forall a, t :: a in acs && t in tests ==> (t.id in a.tests <==> a.id in t.criteria)
    ensures forall s, rid :: s in stories && rid in s.requirements ==> rid in reqs && Covers(s, acs, rid)
    ensures exists rank :: WellFounded(reqs, rank)
  {
    WellFoundedIff(reqs);
    assert forall id :: id in reqs ==> RequirementOk(reqs, id);
    hide WellFounded, Leaves, Covers;
  }
}
