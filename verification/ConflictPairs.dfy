/** Pairs of versions that stand for the conflicts the resolver found: for each group of conflicting versions, just
    enough pairs to connect the group, each of two versions that really differ. */
module ConflictPairs {
  import opened Wrappers
  import opened StringOrder

  /** Identifiers are UUIDs, so all have the same length. */
  const ID_LENGTH: nat := 36
  type Id = s: string | |s| == ID_LENGTH witness seq(ID_LENGTH, i => '0')

  datatype Value = Value(kind: string, text: string)

  datatype Pair = Pair(left: Id, right: Id) {
    function Key(): string { left + right }
  }

  datatype Error = NoDifference

  /** Sorted into the order of strings. */
  function Ordered(a: Id, b: Id): Pair {
    if Before(b, a) then Pair(b, a) else Pair(a, b)
  }

  lemma KeysAreDistinct(p: Pair, q: Pair)
    requires p.Key() == q.Key()
    ensures p == q
  {
    assert p.left == p.Key()[..ID_LENGTH] && q.left == q.Key()[..ID_LENGTH];
    assert p.right == p.Key()[ID_LENGTH..] && q.right == q.Key()[ID_LENGTH..];
  }

  lemma OrderedIsUnordered(a: Id, b: Id, c: Id, d: Id)
    ensures Ordered(a, b) == Ordered(b, a)
    ensures Ordered(a, b) == Ordered(c, d) ==> (a == c && b == d) || (a == d && b == c)
  {
    BeforeIsStrictAndTotal(a, b);
  }

  ghost predicate Known(values: map<Id, Value>, group: seq<Id>) {
    forall id :: id in group ==> id in values
  }

  /** The first version in the group whose value differs from that of the group's first. */
  function Other(values: map<Id, Value>, group: seq<Id>, first: Id): (r: Option<Id>)
    requires Known(values, group) && first in values
    ensures r.Some? ==> r.value in group && values[r.value] != values[first]
    ensures r.None? ==> forall id :: id in group ==> values[id] == values[first]
  {
    if group == [] then None
    else if values[group[0]] != values[first] then Some(group[0])
    else Other(values, group[1..], first)
  }

  /** A group the resolver reports as a conflict: its versions are known, distinct, and not all of one value. */
  ghost predicate Conflicting(values: map<Id, Value>, group: seq<Id>) {
    && Known(values, group) && Distinct(group)
    && exists a, b :: a in group && b in group && values[a] != values[b]
  }

  /** The version that an id of the group is paired with. */
  function Anchor(values: map<Id, Value>, first: Id, other: Id, id: Id): Id
    requires first in values && id in values
  {
    if values[id] == values[first] then other else first
  }

  function Edge(values: map<Id, Value>, first: Id, other: Id, id: Id): Pair
    requires first in values && id in values
  {
    Ordered(id, Anchor(values, first, other, id))
  }

  /** The pairs of a group, in the order in which they are found. */
  function Edges(values: map<Id, Value>, first: Id, other: Id, ids: seq<Id>): seq<Pair>
    requires Known(values, ids) && first in values
  {
    if ids == [] then []
    else (if ids[0] != first then [Edge(values, first, other, ids[0])] else []) + Edges(values, first, other, ids[1..])
  }

  function GroupEdges(values: map<Id, Value>, group: seq<Id>): seq<Pair>
    requires Known(values, group)
  {
    if group == [] || Other(values, group, group[0]).None? then []
    else Edges(values, group[0], Other(values, group, group[0]).value, group)
  }

  function AllEdges(values: map<Id, Value>, groups: seq<seq<Id>>): seq<Pair>
    requires forall g :: g in groups ==> Known(values, g)
  {
    if groups == [] then [] else GroupEdges(values, groups[0]) + AllEdges(values, groups[1..])
  }

  // ---------- a group's pairs are a spanning tree ----------

  lemma {:induction false} EdgesMembers(values: map<Id, Value>, first: Id, other: Id, ids: seq<Id>, p: Pair)
    requires Known(values, ids) && first in values
    ensures p in Edges(values, first, other, ids) <==> exists id :: id in ids && id != first && p == Edge(values, first, other, id)
  {
    if ids != [] {
      EdgesMembers(values, first, other, ids[1..], p);
      assert forall id :: id in ids <==> id == ids[0] || id in ids[1..];
    }
  }

  lemma {:induction false} EdgesCount(values: map<Id, Value>, first: Id, other: Id, ids: seq<Id>)
    requires Known(values, ids) && first in values && first !in ids
    ensures |Edges(values, first, other, ids)| == |ids|
  {
    if ids != [] {
      EdgesCount(values, first, other, ids[1..]);
    }
  }

  lemma EdgeIsInjective(values: map<Id, Value>, first: Id, other: Id, a: Id, b: Id)
    requires first in values && other in values && a in values && b in values && values[first] != values[other]
    requires a != first && b != first && Edge(values, first, other, a) == Edge(values, first, other, b)
    ensures a == b
  {
    OrderedIsUnordered(a, Anchor(values, first, other, a), b, Anchor(values, first, other, b));
  }

  lemma {:induction false} EdgesDistinct(values: map<Id, Value>, first: Id, other: Id, ids: seq<Id>)
    requires Known(values, ids) && first in values && other in values && values[first] != values[other]
    requires Distinct(ids)
    ensures Distinct(Edges(values, first, other, ids))
  {
    if ids != [] {
      EdgesDistinct(values, first, other, ids[1..]);
      if ids[0] != first {
        var head := Edge(values, first, other, ids[0]);
        if head in Edges(values, first, other, ids[1..]) {
          EdgesMembers(values, first, other, ids[1..], head);
          var id :| id in ids[1..] && id != first && head == Edge(values, first, other, id);
          EdgeIsInjective(values, first, other, ids[0], id);
        }
        var tail := Edges(values, first, other, ids[1..]);
        assert Distinct([head] + tail);
      }
    }
  }

  /** One step along a pair. */
  predicate Adjacent(edges: seq<Pair>, a: Id, b: Id) { Ordered(a, b) in edges }

  ghost predicate Path(edges: seq<Pair>, path: seq<Id>) {
    forall i :: 0 <= i < |path| - 1 ==> Adjacent(edges, path[i], path[i + 1])
  }

  ghost predicate Linked(edges: seq<Pair>, a: Id, b: Id) {
    exists path :: |path| > 0 && path[0] == a && path[|path| - 1] == b && Path(edges, path)
  }

  lemma LinkedBothWays(edges: seq<Pair>, a: Id, b: Id)
    requires Linked(edges, a, b)
    ensures Linked(edges, b, a)
  {
    var path :| |path| > 0 && path[0] == a && path[|path| - 1] == b && Path(edges, path);
    var n := |path|;
    var back := seq(n, i requires 0 <= i < n => path[n - 1 - i]);
    forall i | 0 <= i < |back| - 1
      ensures Adjacent(edges, back[i], back[i + 1])
    {
      assert Adjacent(edges, path[n - 2 - i], path[n - 2 - i + 1]);
      OrderedIsUnordered(back[i], back[i + 1], back[i], back[i + 1]);
    }
    assert Path(edges, back);
  }

  lemma LinkedThrough(edges: seq<Pair>, a: Id, b: Id, c: Id)
    requires Linked(edges, a, b) && Linked(edges, b, c)
    ensures Linked(edges, a, c)
  {
    var p :| |p| > 0 && p[0] == a && p[|p| - 1] == b && Path(edges, p);
    var q :| |q| > 0 && q[0] == b && q[|q| - 1] == c && Path(edges, q);
    var path := p + q[1..];
    forall i | 0 <= i < |path| - 1
      ensures Adjacent(edges, path[i], path[i + 1])
    {
      if i < |p| - 1 {
        assert Adjacent(edges, p[i], p[i + 1]);
      } else {
        var k := i - (|p| - 1);
        assert Adjacent(edges, q[k], q[k + 1]);
      }
    }
    assert Path(edges, path);
  }

  lemma StepIsLinked(edges: seq<Pair>, a: Id, b: Id)
    requires Adjacent(edges, a, b)
    ensures Linked(edges, a, b)
  {
    var path := [a, b];
    assert Path(edges, path);
  }

  lemma LinkedToFirst(values: map<Id, Value>, group: seq<Id>, id: Id)
    requires Conflicting(values, group) && id in group
    ensures Linked(GroupEdges(values, group), group[0], id)
  {
    var first := group[0];
    var other := Other(values, group, first).value;
    var edges := GroupEdges(values, group);
    if id == first {
      assert Path(edges, [first]);
    } else {
      EdgesMembers(values, first, other, group, Edge(values, first, other, id));
      StepIsLinked(edges, id, Anchor(values, first, other, id));
      LinkedBothWays(edges, id, Anchor(values, first, other, id));
      if values[id] == values[first] {
        EdgesMembers(values, first, other, group, Edge(values, first, other, other));
        StepIsLinked(edges, other, first);
        LinkedBothWays(edges, other, first);
        LinkedThrough(edges, first, other, id);
      }
    }
  }

  /** The pairs of a conflicting group form a spanning tree: they connect any two of its versions, and there is one
      fewer of them than there are versions. */
  lemma SpanningTree(values: map<Id, Value>, group: seq<Id>)
    requires Conflicting(values, group)
    ensures |GroupEdges(values, group)| == |group| - 1 && Distinct(GroupEdges(values, group))
    ensures forall a, b :: a in group && b in group ==> Linked(GroupEdges(values, group), a, b)
  {
    var first := group[0];
    var other := Other(values, group, first).value;
    var edges := GroupEdges(values, group);
    assert group == [first] + group[1..];
    assert first !in group[1..];
    EdgesCount(values, first, other, group[1..]);
    EdgesDistinct(values, first, other, group);
    forall a, b | a in group && b in group
      ensures Linked(edges, a, b)
    {
      LinkedToFirst(values, group, a);
      LinkedBothWays(edges, first, a);
      LinkedToFirst(values, group, b);
      LinkedThrough(edges, a, first, b);
    }
  }

  /** Every pair joins two versions of the group that differ in value. */
  lemma PairsDiffer(values: map<Id, Value>, group: seq<Id>, p: Pair)
    requires Conflicting(values, group) && p in GroupEdges(values, group)
    ensures p.left in group && p.right in group && values[p.left] != values[p.right]
    ensures Before(p.left, p.right)
  {
    var first := group[0];
    var other := Other(values, group, first).value;
    EdgesMembers(values, first, other, group, p);
    var id :| id in group && id != first && p == Edge(values, first, other, id);
    BeforeIsStrictAndTotal(id, Anchor(values, first, other, id));
  }

  // ---------- pairs that are not stored yet ----------

  predicate After(p: Pair, q: Pair) { Before(q.Key(), p.Key()) }

  function Insert(p: Pair, ps: seq<Pair>): seq<Pair> {
    if ps == [] || !After(p, ps[0]) then [p] + ps else [ps[0]] + Insert(p, ps[1..])
  }

  /** Inserts the pairs one by one, without those stored already and without repetition. */
  function Missing(edges: seq<Pair>, stored: seq<Pair>): seq<Pair> {
    if edges == [] then []
    else
      var rest := Missing(edges[..|edges| - 1], stored);
      var p := edges[|edges| - 1];
      if p in stored || p in rest then rest else Insert(p, rest)
  }

  ghost predicate Ascending(ps: seq<Pair>) {
    forall i :: 0 <= i < |ps| - 1 ==> Before(ps[i].Key(), ps[i + 1].Key())
  }

  lemma {:induction false} InsertMembers(p: Pair, ps: seq<Pair>, q: Pair)
    ensures q in Insert(p, ps) <==> q == p || q in ps
  {
    if ps != [] && After(p, ps[0]) {
      InsertMembers(p, ps[1..], q);
    }
  }

  lemma {:induction false} InsertAscending(p: Pair, ps: seq<Pair>)
    requires Ascending(ps) && p !in ps
    ensures Ascending(Insert(p, ps))
    ensures Insert(p, ps)[0] == p || (ps != [] && Insert(p, ps)[0] == ps[0])
  {
    if ps != [] {
      if After(p, ps[0]) {
        InsertAscending(p, ps[1..]);
      } else {
        BeforeIsStrictAndTotal(p.Key(), ps[0].Key());
        if p.Key() == ps[0].Key() { KeysAreDistinct(p, ps[0]); }
      }
    }
  }

  /** What is missing: each pair found and not stored, once, in ascending order of keys. */
  lemma {:induction false} MissingIs(edges: seq<Pair>, stored: seq<Pair>)
    ensures forall p :: p in Missing(edges, stored) <==> p in edges && p !in stored
    ensures Ascending(Missing(edges, stored))
  {
    if edges != [] {
      var before, last := edges[..|edges| - 1], edges[|edges| - 1];
      MissingIs(before, stored);
      var rest := Missing(before, stored);
      assert forall p :: p in edges <==> p in before || p == last;
      if last !in stored && last !in rest {
        InsertAscending(last, rest);
        forall p: Pair
          ensures p in Insert(last, rest) <==> p == last || p in rest
        {
          InsertMembers(last, rest, p);
        }
      }
    }
  }

  lemma SomeMember(ps: seq<Pair>)
    ensures ps == [] || exists p :: p in ps
  {
    if ps != [] {
      assert ps[0] in ps;
    }
  }

  /** Once the missing pairs are stored, in whatever order and with whatever else, nothing is missing. */
  lemma SecondPreparationAddsNothing(edges: seq<Pair>, stored: seq<Pair>, later: seq<Pair>)
    requires forall p :: p in stored || p in Missing(edges, stored) ==> p in later
    ensures Missing(edges, later) == []
  {
    MissingIs(edges, stored);
    MissingIs(edges, later);
    SomeMember(Missing(edges, later));
  }

  lemma Joined<T>(a: seq<T>, b: seq<T>, c: seq<T>)
    ensures a + (b + c) == a + b + c
  {
  }

  lemma {:induction false} EdgesSnoc(values: map<Id, Value>, first: Id, other: Id, ids: seq<Id>, id: Id)
    requires Known(values, ids) && first in values && id in values
    ensures Edges(values, first, other, ids + [id])
         == Edges(values, first, other, ids) + (if id == first then [] else [Edge(values, first, other, id)])
  {
    hide Edge;
    var last := if id == first then [] else [Edge(values, first, other, id)];
    if ids == [] {
      assert ids + [id] == [id] && [id][1..] == [];
      assert Edges(values, first, other, [id][1..]) == [] && Edges(values, first, other, ids) == [];
    } else {
      var head := if ids[0] != first then [Edge(values, first, other, ids[0])] else [];
      assert (ids + [id])[0] == ids[0] && (ids + [id])[1..] == ids[1..] + [id];
      assert Edges(values, first, other, ids + [id]) == head + Edges(values, first, other, ids[1..] + [id]);
      assert Edges(values, first, other, ids) == head + Edges(values, first, other, ids[1..]);
      hide Edges;
      EdgesSnoc(values, first, other, ids[1..], id);
      Joined(head, Edges(values, first, other, ids[1..]), last);
    }
  }

  /** A group from which pairs can be made. */
  predicate Pairable(values: map<Id, Value>, group: seq<Id>)
    requires Known(values, group)
  {
    group != [] && Other(values, group, group[0]).Some?
  }

  method CollectGroup(group: seq<Id>, values: map<Id, Value>) returns (found: seq<Pair>)
    requires Known(values, group) && Pairable(values, group)
    ensures found == GroupEdges(values, group)
  {
    var first := group[0];
    var other := Other(values, group, first).value;
    found := [];
    var i := 0;
    while i < |group|
      invariant i <= |group|
      invariant found == Edges(values, first, other, group[..i])
    {
      var id := group[i];
      EdgesSnoc(values, first, other, group[..i], id);
      assert group[..i + 1] == group[..i] + [id];
      if id != first {
        var anchor := if values[id] == values[first] then other else first;
        found := found + [Ordered(id, anchor)];
      }
      i := i + 1;
    }
    assert group[..i] == group;
  }

  /** Collects the pairs of all groups. A group without differing values is an error. */
  method CollectPairs(groups: seq<seq<Id>>, values: map<Id, Value>) returns (r: Result<seq<Pair>, Error>)
    requires forall g :: g in groups ==> Known(values, g)
    ensures r.Ok? <==> forall g :: g in groups ==> Pairable(values, g)
    ensures r.Ok? ==> r.value == AllEdges(values, groups)
  {
    hide GroupEdges;
    var found: seq<Pair> := [];
    var k := 0;
    while k < |groups|
      invariant k <= |groups|
      invariant forall g :: g in groups[..k] ==> Pairable(values, g)
      invariant found == AllEdges(values, groups[..k])
    {
      if !Pairable(values, groups[k]) {
        assert groups[k] in groups;
        return Err(NoDifference);
      }
      var edges := CollectGroup(groups[k], values);
      AllEdgesSnoc(values, groups[..k], groups[k]);
      assert groups[..k + 1] == groups[..k] + [groups[k]];
      found := found + edges;
      k := k + 1;
    }
    assert groups[..k] == groups;
    r := Ok(found);
  }

  /** Leaves out repeated and stored pairs and sorts the others. */
  method SortMissing(edges: seq<Pair>, stored: seq<Pair>) returns (missing: seq<Pair>)
    ensures missing == Missing(edges, stored)
  {
    missing := [];
    var i := 0;
    while i < |edges|
      invariant i <= |edges|
      invariant missing == Missing(edges[..i], stored)
    {
      assert edges[..i + 1][..i] == edges[..i];
      if edges[i] !in stored && edges[i] !in missing {
        missing := Insert(edges[i], missing);
      }
      i := i + 1;
    }
    assert edges[..i] == edges;
  }

  lemma {:induction false} AllEdgesSnoc(values: map<Id, Value>, groups: seq<seq<Id>>, group: seq<Id>)
    requires Known(values, group) && forall g :: g in groups ==> Known(values, g)
    ensures forall g :: g in groups + [group] ==> Known(values, g)
    ensures AllEdges(values, groups + [group]) == AllEdges(values, groups) + GroupEdges(values, group)
  {
    hide GroupEdges, Known;
    assert forall g :: g in groups + [group] ==> Known(values, g);
    if groups == [] {
      assert groups + [group] == [group] && [group][1..] == [];
      assert AllEdges(values, [group][1..]) == [] && AllEdges(values, groups) == [];
    } else {
      var head := GroupEdges(values, groups[0]);
      assert (groups + [group])[0] == groups[0] && (groups + [group])[1..] == groups[1..] + [group];
      assert AllEdges(values, groups + [group]) == head + AllEdges(values, groups[1..] + [group]);
      assert AllEdges(values, groups) == head + AllEdges(values, groups[1..]);
      hide AllEdges;
      AllEdgesSnoc(values, groups[1..], group);
      Joined(head, AllEdges(values, groups[1..]), GroupEdges(values, group));
    }
  }

  /** The pairs to add for the groups the resolver found. */
  method NewPairs(groups: seq<seq<Id>>, values: map<Id, Value>, stored: seq<Pair>) returns (r: Result<seq<Pair>, Error>)
    requires forall g :: g in groups ==> Known(values, g)
    ensures r == if forall g :: g in groups ==> Pairable(values, g) then Ok(Missing(AllEdges(values, groups), stored))
                 else Err(NoDifference)
  {
    var found := CollectPairs(groups, values);
    if found.Err? { return Err(NoDifference); }
    var missing := SortMissing(found.value, stored);
    r := Ok(missing);
  }
}
