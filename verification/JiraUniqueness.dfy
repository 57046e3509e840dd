/** The records a complete walk brings name each link, change, board and sprint once. */
module JiraUniqueness {
  import opened Wrappers
  import opened JiraKeys
  import opened JiraPaging
  import opened JiraServer
  import opened JiraWalk
  import opened JiraEnumeration

  /** A link of issue i, named by its two ends. */
  function Ends(w: Walk, i: nat, l: RawLink): (string, string) {
    (KeyOr(l.inward, w.KeyAt(i)), KeyOr(l.outward, w.KeyAt(i)))
  }

  predicate BothInScope(w: Walk, ends: (string, string)) {
    w.cfg.ProjectOfKey(ends.0).Some? && w.cfg.ProjectOfKey(ends.1).Some?
  }

  /** Link l of issue i is also a link of issue j. */
  ghost predicate AlsoAt(w: Walk, l: RawLink, j: nat)
    requires j < w.N()
  {
    exists m :: m in w.LinksAt(j) && m.id == l.id
  }

  /** Links are relations between issues: an id stands for one pair of ends wherever it is listed, and a link
      between issues in scope is listed at both of them. Issue ids name issues. */
  ghost predicate Relational(w: Walk) {
    && (forall i, j, l, m :: 0 <= i < w.N() && 0 <= j < w.N() && l in w.LinksAt(i) && m in w.LinksAt(j) && l.id == m.id
          ==> Ends(w, i, l) == Ends(w, j, m))
    && (forall i, l :: 0 <= i < w.N() && l in w.LinksAt(i) && BothInScope(w, Ends(w, i, l))
          ==> exists j :: 0 <= j < w.N() && w.KeyAt(j) == Smaller(Ends(w, i, l).1, Ends(w, i, l).0) && AlsoAt(w, l, j))
    && (forall i, j :: 0 <= i < j < w.N() ==> w.s.issues[i].id != w.s.issues[j].id)
  }

  /** No record of `a` names what a record of `b` names. */
  ghost predicate Apart(a: seq<Record>, b: seq<Record>) {
    forall x, y :: x in a && y in b ==> x.Identity() != y.Identity()
  }

  lemma RepeatsAppend(a: seq<Record>, b: seq<Record>)
    requires !Repeats(a) && !Repeats(b) && Apart(a, b)
    ensures !Repeats(a + b)
  {
    var c := a + b;
    forall i, j | 0 <= i < j < |c|
      ensures c[i].Identity() != c[j].Identity()
    {
      if i < |a| <= j {
        assert c[i] in a && c[j] in b;
      }
    }
  }

  // ---------- links ----------

  lemma {:induction false} LinkRecordsHave(cfg: Config, links: seq<RawLink>, source: string, r: Record)
    ensures r in LinkRecords(cfg, links, source) <==> exists l :: l in links && LinkOf(cfg, l, source) == Ok(Some(r))
  {
    hide LinkOf;
    if links != [] {
      LinkRecordsHave(cfg, links[1..], source, r);
      assert links == [links[0]] + links[1..];
    }
  }

  /** Record r is the one of a link listed at issue j. */
  ghost predicate FromLink(w: Walk, j: nat, r: Record)
    requires j < w.N()
  {
    exists l :: l in w.LinksAt(j) && LinkOf(w.cfg, l, w.KeyAt(j)) == Ok(Some(r))
  }

  lemma HereIs(w: Walk, i: nat, r: Record)
    requires i < w.N()
    ensures r in w.LinkRest(i, 0) <==> FromLink(w, i, r)
  {
    assert w.LinksAt(i)[0..] == w.LinksAt(i);
    LinkRecordsHave(w.cfg, w.LinksAt(i), w.KeyAt(i), r);
    hide LinkOf, LinkRecords;
  }

  lemma {:induction false} LinksFromHave(w: Walk, i: nat, r: Record)
    ensures r in w.LinksFrom(i) <==> exists j :: i <= j < w.N() && FromLink(w, j, r)
    decreases w.N() - i
  {
    hide Walk.LinkRest, FromLink, LinkOf, LinkRecords, Walk.LinksAt;
    if i < w.N() {
      LinksFromHave(w, i + 1, r);
      HereIs(w, i, r);
      assert r in w.LinksFrom(i) <==> r in w.LinkRest(i, 0) || r in w.LinksFrom(i + 1);
      hide Walk.LinksFrom;
    }
  }

  lemma SameEnds(w: Walk, i: nat, j: nat, l: RawLink, m: RawLink)
    requires Relational(w) && i < w.N() && j < w.N() && l in w.LinksAt(i) && m in w.LinksAt(j) && l.id == m.id
    ensures Ends(w, i, l) == Ends(w, j, m)
  {
  }

  lemma LinkRecordIs(cfg: Config, l: RawLink, source: string, r: Record)
    requires LinkOf(cfg, l, source) == Ok(Some(r))
    ensures r.LinkRecord? && r.linkId == l.id
    ensures Smaller(KeyOr(l.outward, source), KeyOr(l.inward, source)) == source
    ensures cfg.ProjectOfKey(KeyOr(l.outward, source)).Some? && cfg.ProjectOfKey(KeyOr(l.inward, source)).Some?
  {
    hide IsIssueKey, Config.ProjectOfKey, Smaller;
  }

  lemma SameLinkSameIssue(w: Walk, i: nat, j: nat, r: Record, q: Record)
    requires w.Valid() && Relational(w) && i < w.N() && j < w.N() && FromLink(w, i, r) && FromLink(w, j, q)
    ensures r.LinkRecord? && q.LinkRecord? && (r.linkId == q.linkId ==> i == j)
  {
    var l :| l in w.LinksAt(i) && LinkOf(w.cfg, l, w.KeyAt(i)) == Ok(Some(r));
    var m :| m in w.LinksAt(j) && LinkOf(w.cfg, m, w.KeyAt(j)) == Ok(Some(q));
    hide Walk.Valid, LinkOf, FromLink, Relational;
    LinkRecordIs(w.cfg, l, w.KeyAt(i), r);
    LinkRecordIs(w.cfg, m, w.KeyAt(j), q);
    if r.linkId == q.linkId {
      SameEnds(w, i, j, l, m);
      assert w.KeyAt(i) == w.KeyAt(j);
      DistinctKeys(w, i, j);
    }
  }

  lemma DistinctKeys(w: Walk, i: nat, j: nat)
    requires w.Valid() && i < w.N() && j < w.N() && w.KeyAt(i) == w.KeyAt(j)
    ensures i == j
  {
  }

  lemma LinksAtDiffer(w: Walk, i: nat)
    requires w.Valid() && i < w.N()
    ensures !Repeats(w.LinkRest(i, 0))
  {
    IssueFacts(w, i);
    hide Walk.Valid, LinkRecords, Repeats, IssueRefused, LinkOf;
    assert w.LinksAt(i)[0..] == w.LinksAt(i);
    LinkRecordsDiffer(w.cfg, w.LinksAt(i), w.KeyAt(i));
  }

  lemma LinksApart(w: Walk, i: nat, r: Record, q: Record)
    requires w.Valid() && Relational(w) && i < w.N() && r in w.LinkRest(i, 0)
    ensures r.LinkRecord?
    ensures q in w.LinksFrom(i + 1) ==> r.Identity() != q.Identity()
  {
    hide Walk.Valid, Relational, FromLink, Walk.LinksFrom, Walk.LinkRest, LinkOf, Smaller, Ends;
    HereIs(w, i, r);
    SameLinkSameIssue(w, i, i, r, r);
    LinksFromHave(w, i + 1, q);
    if q in w.LinksFrom(i + 1) {
      var j :| i + 1 <= j < w.N() && FromLink(w, j, q);
      SameLinkSameIssue(w, i, j, r, q);
    }
  }

  lemma LinksAllApart(w: Walk, i: nat)
    requires w.Valid() && Relational(w) && i < w.N()
    ensures Apart(w.LinkRest(i, 0), w.LinksFrom(i + 1))
    ensures forall r :: r in w.LinkRest(i, 0) ==> r.LinkRecord?
  {
    hide Walk.LinkRest, Walk.LinksFrom;
    forall r, q | r in w.LinkRest(i, 0) && q in w.LinksFrom(i + 1)
      ensures r.Identity() != q.Identity()
    {
      LinksApart(w, i, r, q);
    }
    forall r | r in w.LinkRest(i, 0)
      ensures r.LinkRecord?
    {
      LinksApart(w, i, r, r);
    }
  }

  lemma {:induction false} LinksOnce(w: Walk, i: nat)
    requires w.Shape() && w.Valid() && Relational(w)
    ensures !Repeats(w.LinksFrom(i))
    ensures forall r :: r in w.LinksFrom(i) ==> r.LinkRecord?
    decreases w.N() - i
  {
    hide Walk.Valid, Walk.Shape, Relational, Repeats, Apart, LinkOf;
    NoneRepeats();
    if i < w.N() {
      LinksOnce(w, i + 1);
      LinksAtDiffer(w, i);
      var here, later := w.LinkRest(i, 0), w.LinksFrom(i + 1);
      assert w.LinksFrom(i) == here + later;
      hide Walk.LinkRest, Walk.LinksFrom;
      LinksAllApart(w, i);
      RepeatsAppend(here, later);
    }
  }

  lemma LinkEmits(cfg: Config, l: RawLink, source: string)
    requires LinkOf(cfg, l, source).Ok?
    requires cfg.ProjectOfKey(KeyOr(l.outward, source)).Some? && cfg.ProjectOfKey(KeyOr(l.inward, source)).Some?
    requires Smaller(KeyOr(l.outward, source), KeyOr(l.inward, source)) == source
    ensures LinkOf(cfg, l, source).value.Some? && LinkOf(cfg, l, source).value.value.LinkRecord?
    ensures LinkOf(cfg, l, source).value.value.linkId == l.id
  {
    hide IsIssueKey, Config.ProjectOfKey, Smaller;
  }

  lemma CanonicalIssue(w: Walk, i: nat, l: RawLink) returns (j: nat)
    requires Relational(w) && i < w.N() && l in w.LinksAt(i) && BothInScope(w, Ends(w, i, l))
    ensures j < w.N() && w.KeyAt(j) == Smaller(Ends(w, i, l).1, Ends(w, i, l).0) && AlsoAt(w, l, j)
  {
    hide Smaller, BothInScope, AlsoAt, Ends;
    j :| 0 <= j < w.N() && w.KeyAt(j) == Smaller(Ends(w, i, l).1, Ends(w, i, l).0) && AlsoAt(w, l, j);
  }

  lemma Canonical(w: Walk, i: nat, l: RawLink) returns (j: nat, m: RawLink)
    requires Relational(w) && i < w.N() && l in w.LinksAt(i) && BothInScope(w, Ends(w, i, l))
    ensures j < w.N() && m in w.LinksAt(j) && m.id == l.id && Ends(w, j, m) == Ends(w, i, l)
    ensures w.KeyAt(j) == Smaller(Ends(w, i, l).1, Ends(w, i, l).0)
  {
    j := CanonicalIssue(w, i, l);
    hide Smaller, Ends, BothInScope;
    m :| m in w.LinksAt(j) && m.id == l.id;
    SameEnds(w, j, i, m, l);
  }

  lemma InScopeRecorded(w: Walk, i: nat, l: RawLink) returns (r: Record)
    requires w.Valid() && Relational(w) && i < w.N() && l in w.LinksAt(i) && BothInScope(w, Ends(w, i, l))
    ensures r in w.LinksFrom(0) && r.LinkRecord? && r.linkId == l.id
  {
    var j, m := Canonical(w, i, l);
    IssueFacts(w, j);
    hide Walk.Valid, Relational, LinkOf, Smaller, Config.ProjectOfKey, IssueRefused, Walk.LinksFrom;
    LinkEmits(w.cfg, m, w.KeyAt(j));
    r := LinkOf(w.cfg, m, w.KeyAt(j)).value.value;
    assert FromLink(w, j, r);
    LinksFromHave(w, 0, r);
  }

  lemma RecordedInScope(w: Walk, i: nat, l: RawLink, r: Record)
    requires Relational(w) && i < w.N() && l in w.LinksAt(i) && r in w.LinksFrom(0) && r.LinkRecord? && r.linkId == l.id
    ensures BothInScope(w, Ends(w, i, l))
  {
    LinksFromHave(w, 0, r);
    hide Walk.LinksFrom, LinkOf;
    var j :| 0 <= j < w.N() && FromLink(w, j, r);
    var m :| m in w.LinksAt(j) && LinkOf(w.cfg, m, w.KeyAt(j)) == Ok(Some(r));
    LinkRecordIs(w.cfg, m, w.KeyAt(j), r);
    SameEnds(w, j, i, m, l);
    hide Relational, Config.ProjectOfKey, Smaller;
  }

  /** A listed link has a record exactly when both of its ends are in scope. */
  lemma LinkRecorded(w: Walk, i: nat, l: RawLink)
    requires w.Valid() && Relational(w) && i < w.N() && l in w.LinksAt(i)
    ensures BothInScope(w, Ends(w, i, l)) <==> exists r :: r in w.LinksFrom(0) && r.LinkRecord? && r.linkId == l.id
  {
    if BothInScope(w, Ends(w, i, l)) {
      var r := InScopeRecorded(w, i, l);
    }
    hide Walk.Valid, Walk.LinksFrom, BothInScope;
    forall r | r in w.LinksFrom(0) && r.LinkRecord? && r.linkId == l.id
      ensures BothInScope(w, Ends(w, i, l))
    {
      RecordedInScope(w, i, l, r);
    }
  }

  // ---------- changes, boards, sprints ----------

  /** Record r is the one of item number `r.ordinal` of history h of issue i. */
  ghost predicate FromItem(w: Walk, i: nat, h: nat, r: Record)
    requires i < w.N() == |w.s.histories| && h < |w.s.histories[i]|
  {
    && r.ChangelogRecord? && r.ordinal < |w.ItemsAt(i, h)|
    && w.ItemsAt(i, h)[r.ordinal] == Mapped(r.observation)
    && r.project == ProjectName(w.cfg, w.s.issues[i].key)
    && Numeric(r.issueId) == (if w.s.issues[i].id.Numeric? then w.s.issues[i].id else Numeric(0))
    && Some(r.historyId) == (if w.s.histories[i][h].id.Some? then w.s.histories[i][h].id else Some(0))
  }

  /** Record r is the one of an item of this list, whose first item has number `ordinal`. */
  predicate ItemRecorded(project: string, issueId: nat, historyId: nat, items: seq<Item>, ordinal: nat, r: Record) {
    && r.ChangelogRecord? && r.project == project && r.issueId == issueId && r.historyId == historyId
    && ordinal <= r.ordinal < ordinal + |items| && items[r.ordinal - ordinal] == Mapped(r.observation)
  }

  lemma RecordedFirstOrLater(project: string, issueId: nat, historyId: nat, items: seq<Item>, ordinal: nat, r: Record)
    requires items != []
    ensures ItemRecorded(project, issueId, historyId, items, ordinal, r) <==>
              || (items[0].Mapped? && r == ChangelogRecord(project, issueId, historyId, ordinal, items[0].observation))
              || ItemRecorded(project, issueId, historyId, items[1..], ordinal + 1, r)
  {
    if r.ChangelogRecord? && ordinal < r.ordinal < ordinal + |items| {
      assert items[1..][r.ordinal - (ordinal + 1)] == items[r.ordinal - ordinal];
    }
  }

  lemma {:induction false} ItemRecordsHave(project: string, issueId: nat, historyId: nat, items: seq<Item>, ordinal: nat, r: Record)
    ensures r in ItemRecords(project, issueId, historyId, items, ordinal) <==> ItemRecorded(project, issueId, historyId, items, ordinal, r)
  {
    if items != [] {
      RecordedFirstOrLater(project, issueId, historyId, items, ordinal, r);
      ItemRecordsHave(project, issueId, historyId, items[1..], ordinal + 1, r);
      hide ItemRecorded;
      var first := if items[0].Mapped? then [ChangelogRecord(project, issueId, historyId, ordinal, items[0].observation)] else [];
      var rest := ItemRecords(project, issueId, historyId, items[1..], ordinal + 1);
      assert r in first + rest <==> r in first || r in rest;
    }
  }

  lemma HistoryHas(w: Walk, i: nat, h: nat, r: Record)
    requires w.Shape() && i < w.N() && h < |w.s.histories[i]|
    ensures r in w.HistoryRest(i, h, 0) <==> FromItem(w, i, h, r)
    ensures !Repeats(w.HistoryRest(i, h, 0))
  {
    var issue, history, items := w.s.issues[i], w.s.histories[i][h], w.ItemsAt(i, h);
    var issueId, historyId := if issue.id.Numeric? then issue.id.id else 0, if history.id.Some? then history.id.value else 0;
    assert items[0..] == items;
    ItemRecordsHave(ProjectName(w.cfg, issue.key), issueId, historyId, items, 0, r);
    ItemRecordsAre(ProjectName(w.cfg, issue.key), issueId, historyId, items, 0);
    hide Repeats, ItemRecords;
  }

  lemma {:induction false} HistoriesHave(w: Walk, i: nat, h: nat, r: Record)
    requires w.Shape() && i < w.N()
    ensures r in w.HistoriesFrom(i, h) <==> exists k :: h <= k < |w.s.histories[i]| && FromItem(w, i, k, r)
    decreases |w.s.histories[i]| - h
  {
    if h < |w.s.histories[i]| {
      HistoriesHave(w, i, h + 1, r);
      HistoryHas(w, i, h, r);
      hide Walk.HistoryRest, FromItem;
    }
  }

  /** Record r is the one of an item of issue i. */
  ghost predicate FromIssue(w: Walk, i: nat, r: Record)
    requires i < w.N() == |w.s.histories|
  {
    exists k :: 0 <= k < |w.s.histories[i]| && FromItem(w, i, k, r)
  }

  lemma IssueHas(w: Walk, i: nat, r: Record)
    requires w.Shape() && i < w.N()
    ensures r in w.HistoriesFrom(i, 0) <==> FromIssue(w, i, r)
  {
    HistoriesHave(w, i, 0, r);
    hide Walk.HistoriesFrom, FromItem;
  }

  /** The changelog part holds exactly one kind of record: those of the mapped items, each under the ids of its
      issue and history and its number in the history. */
  lemma {:induction false} LogHas(w: Walk, i: nat, r: Record)
    requires w.Shape()
    ensures r in w.LogFrom(i) <==> exists j :: i <= j < w.N() && FromIssue(w, j, r)
    decreases w.N() - i
  {
    assert |w.s.histories| == w.N();
    hide Walk.Shape, Walk.HistoriesFrom, FromIssue;
    if i < w.N() {
      LogHas(w, i + 1, r);
      IssueHas(w, i, r);
      assert r in w.LogFrom(i) <==> r in w.HistoriesFrom(i, 0) || r in w.LogFrom(i + 1);
      hide Walk.LogFrom;
    }
  }

  lemma ItemIssue(w: Walk, i: nat, j: nat, h: nat, k: nat, r: Record, q: Record)
    requires w.Valid() && Relational(w) && i < w.N() && j < w.N() && h < |w.s.histories[i]| && k < |w.s.histories[j]|
    requires FromItem(w, i, h, r) && FromItem(w, j, k, q)
    ensures r.Identity() == q.Identity() ==> i == j && h == k
  {
    if r.Identity() == q.Identity() {
      IssueFacts(w, i);
      IssueFacts(w, j);
      assert w.s.issues[i].id == w.s.issues[j].id;
      assert i == j;
      hide Walk.Valid, Relational;
      assert w.s.histories[i][h] in w.s.histories[i] && w.s.histories[i][k] in w.s.histories[i];
    }
  }

  lemma HistoriesApart(w: Walk, i: nat, h: nat, r: Record, q: Record)
    requires w.Valid() && Relational(w) && i < w.N() && h < |w.s.histories[i]|
    requires r in w.HistoryRest(i, h, 0) && q in w.HistoriesFrom(i, h + 1)
    ensures r.Identity() != q.Identity()
  {
    HistoryHas(w, i, h, r);
    HistoriesHave(w, i, h + 1, q);
    hide FromItem, Walk.HistoryRest, Walk.HistoriesFrom, Walk.Valid, Relational;
    var k :| h + 1 <= k < |w.s.histories[i]| && FromItem(w, i, k, q);
    ItemIssue(w, i, i, h, k, r, q);
  }

  lemma HistoriesAllApart(w: Walk, i: nat, h: nat)
    requires w.Valid() && Relational(w) && i < w.N() && h < |w.s.histories[i]|
    ensures Apart(w.HistoryRest(i, h, 0), w.HistoriesFrom(i, h + 1))
  {
    hide Walk.HistoryRest, Walk.HistoriesFrom;
    forall r, q | r in w.HistoryRest(i, h, 0) && q in w.HistoriesFrom(i, h + 1)
      ensures r.Identity() != q.Identity()
    {
      HistoriesApart(w, i, h, r, q);
    }
  }

  lemma {:induction false} HistoriesOnce(w: Walk, i: nat, h: nat)
    requires w.Shape() && w.Valid() && Relational(w) && i < w.N()
    ensures !Repeats(w.HistoriesFrom(i, h))
    decreases |w.s.histories[i]| - h
  {
    hide Walk.Valid, Relational, Repeats, Apart;
    NoneRepeats();
    if h < |w.s.histories[i]| {
      HistoriesOnce(w, i, h + 1);
      var here, later := w.HistoryRest(i, h, 0), w.HistoriesFrom(i, h + 1);
      HistoryHas(w, i, h, BoardRecord("", 0));
      assert w.HistoriesFrom(i, h) == here + later;
      hide Walk.HistoryRest, Walk.HistoriesFrom;
      HistoriesAllApart(w, i, h);
      RepeatsAppend(here, later);
    }
  }

  lemma LogApart(w: Walk, i: nat, r: Record, q: Record)
    requires w.Valid() && Relational(w) && i < w.N() && r in w.HistoriesFrom(i, 0) && q in w.LogFrom(i + 1)
    ensures r.Identity() != q.Identity()
  {
    assert w.Shape() && |w.s.histories| == w.N();
    hide FromItem, Walk.HistoriesFrom, Walk.LogFrom, Walk.Valid, Walk.Shape, Relational, Record.Identity;
    HistoriesHave(w, i, 0, r);
    LogHas(w, i + 1, q);
    var h :| 0 <= h < |w.s.histories[i]| && FromItem(w, i, h, r);
    var j :| i + 1 <= j < w.N() && FromIssue(w, j, q);
    var k :| 0 <= k < |w.s.histories[j]| && FromItem(w, j, k, q);
    ItemIssue(w, i, j, h, k, r, q);
  }

  lemma LogAllApart(w: Walk, i: nat)
    requires w.Valid() && Relational(w) && i < w.N()
    ensures Apart(w.HistoriesFrom(i, 0), w.LogFrom(i + 1))
  {
    hide Walk.HistoriesFrom, Walk.LogFrom;
    forall r, q | r in w.HistoriesFrom(i, 0) && q in w.LogFrom(i + 1)
      ensures r.Identity() != q.Identity()
    {
      LogApart(w, i, r, q);
    }
  }

  lemma {:induction false} LogOnce(w: Walk, i: nat)
    requires w.Shape() && w.Valid() && Relational(w)
    ensures !Repeats(w.LogFrom(i))
    decreases w.N() - i
  {
    hide Walk.Valid, Relational, Repeats, Apart;
    NoneRepeats();
    if i < w.N() {
      LogOnce(w, i + 1);
      HistoriesOnce(w, i, 0);
      var here, later := w.HistoriesFrom(i, 0), w.LogFrom(i + 1);
      assert w.LogFrom(i) == here + later;
      hide Walk.HistoriesFrom, Walk.LogFrom;
      LogAllApart(w, i);
      RepeatsAppend(here, later);
    }
  }

  lemma BoardOnce(w: Walk, b: nat)
    requires w.Valid() && b < |w.cfg.boards|
    ensures !Repeats(w.SprintRest(b, 0))
    ensures forall r :: r in w.SprintRest(b, 0) ==>
      (r.BoardRecord? && r.boardId == w.cfg.boards[b].boardId) || (r.SprintRecord? && r.boardId == w.cfg.boards[b].boardId)
  {
    var m, sprints := w.cfg.boards[b], w.SprintsAtBoard(b);
    assert m in w.cfg.boards;
    assert sprints[0..] == sprints;
    SprintRecordsAre(m, sprints);
    SprintsNameBoard(m, sprints);
    hide Walk.Valid, SprintRecords, Repeats;
    RepeatsAppendOne(w.BoardRecordAt(b), SprintRecords(m, sprints));
  }

  lemma RepeatsAppendOne(x: Record, b: seq<Record>)
    requires !Repeats(b) && forall y :: y in b ==> x.Identity() != y.Identity()
    ensures !Repeats([x] + b)
  {
    RepeatsAppend([x], b);
  }

  lemma {:induction false} SprintsNameBoard(m: BoardMapping, sprints: seq<Sprint>)
    ensures forall r :: r in SprintRecords(m, sprints) ==> r.SprintRecord? && r.boardId == m.boardId
  {
    if sprints != [] {
      SprintsNameBoard(m, sprints[1..]);
    }
  }

  predicate OfLaterBoard(w: Walk, b: nat, r: Record) {
    (r.BoardRecord? || r.SprintRecord?) && exists c :: b <= c < |w.cfg.boards| && w.cfg.boards[c].boardId == r.boardId
  }

  ghost predicate AllOfLaterBoards(w: Walk, b: nat, rs: seq<Record>) {
    forall r :: r in rs ==> OfLaterBoard(w, b, r)
  }

  lemma BoardsApart(w: Walk, b: nat, later: seq<Record>)
    requires w.Valid() && b < |w.cfg.boards| && AllOfLaterBoards(w, b + 1, later)
    ensures Apart(w.SprintRest(b, 0), later)
    ensures AllOfLaterBoards(w, b, w.SprintRest(b, 0) + later)
  {
    BoardOnce(w, b);
    BoardsDiffer(w, b);
    hide Walk.Valid, Walk.SprintRest, Repeats;
  }

  lemma {:induction false} SprintsOnce(w: Walk, b: nat)
    requires w.Shape() && w.Valid()
    ensures !Repeats(w.SprintsFrom(b))
    ensures AllOfLaterBoards(w, b, w.SprintsFrom(b))
    decreases |w.cfg.boards| - b
  {
    hide Walk.Valid, Relational, Repeats, Apart;
    NoneRepeats();
    if b < |w.cfg.boards| {
      SprintsOnce(w, b + 1);
      BoardOnce(w, b);
      var here, later := w.SprintRest(b, 0), w.SprintsFrom(b + 1);
      assert w.SprintsFrom(b) == here + later;
      hide Walk.SprintRest, Walk.SprintsFrom;
      BoardsApart(w, b, later);
      RepeatsAppend(here, later);
    }
  }

  lemma BoardsDiffer(w: Walk, b: nat)
    requires w.Valid() && b < |w.cfg.boards|
    ensures forall c :: b + 1 <= c < |w.cfg.boards| ==> w.cfg.boards[c].boardId != w.cfg.boards[b].boardId
  {
    forall c | b + 1 <= c < |w.cfg.boards|
      ensures w.cfg.boards[c].boardId != w.cfg.boards[b].boardId
    {
      assert w.cfg.boards[b] in w.cfg.boards && w.cfg.boards[c] in w.cfg.boards;
    }
  }

  /** What a complete walk brings besides issues never names the same thing twice. */
  lemma NoEntityTwice(w: Walk)
    requires w.Valid() && Relational(w)
    ensures !Repeats(w.Expected())
  {
    LinksOnce(w, 0);
    LogOnce(w, 0);
    SprintsOnce(w, 0);
    LogKind(w);
    NoneRepeats();
    var links, log, sprints := if w.cfg.issueLinks then w.LinksFrom(0) else [],
                               if w.cfg.changelog then w.LogFrom(0) else [], w.RestAfterLog();
    hide Walk.Valid, Relational, Repeats, Walk.LinksFrom, Walk.LogFrom, Walk.SprintsFrom;
    assert forall r :: r in links ==> r.LinkRecord?;
    assert forall r :: r in sprints ==> r.BoardRecord? || r.SprintRecord?;
    hide OfLaterBoard, Walk.RestAfterLog;
    KindsApart(links, log, sprints);
  }

  lemma KindsApart(links: seq<Record>, log: seq<Record>, sprints: seq<Record>)
    requires !Repeats(links) && !Repeats(log) && !Repeats(sprints)
    requires forall r :: r in links ==> r.LinkRecord?
    requires forall r :: r in log ==> r.ChangelogRecord?
    requires forall r :: r in sprints ==> r.BoardRecord? || r.SprintRecord?
    ensures !Repeats(links + (log + sprints))
  {
    hide Repeats;
    RepeatsAppend(log, sprints);
    RepeatsAppend(links, log + sprints);
  }

  lemma NoneRepeats()
    ensures !Repeats([])
  {
  }

  lemma LogKind(w: Walk)
    requires w.Shape()
    ensures forall r :: r in w.LogFrom(0) ==> r.ChangelogRecord?
  {
    forall r | r in w.LogFrom(0)
      ensures r.ChangelogRecord?
    {
      LogHas(w, 0, r);
    }
  }
}
