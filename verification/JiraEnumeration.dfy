/** What a whole walk brings: every issue first, then every link, change, board and sprint once. */
module JiraEnumeration {
  import opened Wrappers
  import opened JiraKeys
  import opened JiraPaging
  import opened JiraServer
  import opened JiraWalk

  predicate IsEntity(r: Record) { !r.IssueRecord? }

  function Entities(rs: seq<Record>): seq<Record> { Filter(IsEntity, rs) }

  function IssuesIn(rs: seq<Record>): seq<Record> { Filter((r: Record) => r.IssueRecord?, rs) }

  lemma EntitiesAppend(a: seq<Record>, b: seq<Record>)
    ensures Entities(a + b) == Entities(a) + Entities(b)
    ensures IssuesIn(a + b) == IssuesIn(a) + IssuesIn(b)
  {
    FilterAppend(IsEntity, a, b);
    FilterAppend((r: Record) => r.IssueRecord?, a, b);
  }

  // ---------- the records of one page ----------

  lemma {:induction false} LinkRecordsAre(cfg: Config, links: seq<RawLink>, source: string)
    ensures forall r :: r in LinkRecords(cfg, links, source) ==> r.LinkRecord? && exists l :: l in links && l.id == r.linkId
    ensures |LinkRecords(cfg, links, source)| <= |links|
  {
    hide IsIssueKey, Config.ProjectOfKey;
    if links != [] {
      LinkRecordsAre(cfg, links[1..], source);
    }
  }

  lemma {:induction false} LinkRecordsDiffer(cfg: Config, links: seq<RawLink>, source: string)
    requires forall i, j :: 0 <= i < j < |links| ==> links[i].id != links[j].id
    ensures !Repeats(LinkRecords(cfg, links, source))
  {
    hide IsIssueKey, Config.ProjectOfKey;
    if links != [] {
      LinkRecordsDiffer(cfg, links[1..], source);
      LinkRecordsAre(cfg, links[1..], source);
    }
  }

  lemma {:induction false} LinkRecordsAppend(cfg: Config, a: seq<RawLink>, b: seq<RawLink>, source: string)
    ensures LinkRecords(cfg, a + b, source) == LinkRecords(cfg, a, source) + LinkRecords(cfg, b, source)
  {
    hide LinkOf;
    if a == [] {
      assert a + b == b;
    } else {
      assert (a + b)[0] == a[0] && (a + b)[1..] == a[1..] + b;
      LinkRecordsAppend(cfg, a[1..], b, source);
    }
  }

  lemma {:induction false} ItemRecordsAre(project: string, issueId: nat, historyId: nat, items: seq<Item>, ordinal: nat)
    ensures var rs := ItemRecords(project, issueId, historyId, items, ordinal);
      && |rs| <= |items|
      && (forall r :: r in rs ==> r.ChangelogRecord? && r.ordinal >= ordinal)
      && !Repeats(rs)
  {
    if items != [] {
      ItemRecordsAre(project, issueId, historyId, items[1..], ordinal + 1);
    }
  }

  lemma {:induction false} SprintRecordsAre(m: BoardMapping, sprints: seq<Sprint>)
    requires forall i, j :: 0 <= i < j < |sprints| ==> sprints[i].id != sprints[j].id
    ensures var rs := SprintRecords(m, sprints);
      && |rs| == |sprints|
      && (forall r :: r in rs ==> r.SprintRecord? && exists s :: s in sprints && s.id == r.sprintId)
      && !Repeats(rs)
  {
    if sprints != [] {
      SprintRecordsAre(m, sprints[1..]);
    }
  }

  lemma {:induction false} SprintRecordsAppend(m: BoardMapping, a: seq<Sprint>, b: seq<Sprint>)
    ensures SprintRecords(m, a + b) == SprintRecords(m, a) + SprintRecords(m, b)
  {
    if a == [] {
      assert a + b == b;
    } else {
      assert (a + b)[0] == a[0] && (a + b)[1..] == a[1..] + b;
      SprintRecordsAppend(m, a[1..], b);
    }
  }

  lemma {:induction false} IssueRecordsAre(cfg: Config, issues: seq<Issue>)
    requires forall i, j :: 0 <= i < j < |issues| ==> issues[i].key != issues[j].key
    ensures var rs := IssueRecords(cfg, issues);
      && |rs| == |issues|
      && (forall i :: 0 <= i < |issues| ==> rs[i] == IssueRecordOf(cfg, issues[i]))
      && !Repeats(rs)
  {
    hide Config.ProjectOfIssue;
    if issues != [] {
      IssueRecordsAre(cfg, issues[1..]);
    }
  }

  /** An issue record names a listed issue. */
  ghost predicate Listed(w: Walk, r: Record)
  {
    exists i :: i in w.s.issues && IssueRecordOf(w.cfg, i) == r
  }

  /** What a page is: fit to be let out, with the entities up to the next place, and otherwise listed issues. */
  ghost predicate Stands(w: Walk, rs: seq<Record>, next: Option<Place>, rest: seq<Record>)
    requires w.Shape() && (next.Some? ==> w.On(next.value))
  {
    && 1 <= |rs| <= 100
    && !Repeats(rs)
    && Entities(rs) + w.RestOpt(next) == rest
    && (forall r :: r in rs && r.IssueRecord? ==> Listed(w, r))
  }

  lemma PhaseRests(w: Walk)
    requires w.Shape()
    ensures w.RestOpt(w.SprintPlace()) == w.RestAfterLog()
    ensures w.RestOpt(w.LogPlace()) == w.RestAfterLinks()
    ensures w.RestOpt(w.LinkPlace()) == (if w.cfg.issueLinks then w.LinksFrom(0) else []) + w.RestAfterLinks()
  {
  }

  /** A page that may be let out and carries these entities. */
  ghost predicate PageOf(w: Walk, rs: seq<Record>, entities: seq<Record>) {
    && 1 <= |rs| <= 100
    && !Repeats(rs)
    && Entities(rs) == entities
    && (forall r :: r in rs && r.IssueRecord? ==> Listed(w, r))
  }

  lemma OrParentStands(w: Walk, rs: seq<Record>, i: nat)
    requires i < w.N() && |rs| <= 100 && !Repeats(rs) && forall r :: r in rs ==> IsEntity(r)
    ensures PageOf(w, OrParent(rs, w.Parent(i)), rs)
  {
    FilterAll(IsEntity, rs);
    FilterAll(IsEntity, [w.Parent(i)]);
    assert w.s.issues[i] in w.s.issues;
  }

  lemma LinkFits(w: Walk, i: nat, off: nat)
    requires w.Shape() && i < w.N() && off <= |w.LinksAt(i)| && w.IssueOk(i)
    ensures PageOf(w, OrParent(w.LinkChunk(i, off), w.Parent(i)), w.LinkChunk(i, off))
  {
    hide Repeats, PageOf, OrParent;
    var links, key := w.LinksAt(i), w.s.issues[i].key;
    var end := w.End(off, |links|, w.cfg.EntityPageSize());
    LinkRecordsAre(w.cfg, links[off..end], key);
    LinkRecordsDiffer(w.cfg, links[off..end], key);
    OrParentStands(w, w.LinkChunk(i, off), i);
  }

  lemma LinkChunkRest(w: Walk, i: nat, off: nat, end: nat)
    requires i < w.N() && off <= end <= |w.LinksAt(i)|
    requires end == w.End(off, |w.LinksAt(i)|, w.cfg.EntityPageSize())
    ensures w.LinkRest(i, off) == w.LinkChunk(i, off) + w.LinkRest(i, end)
  {
    var links := w.LinksAt(i);
    assert links[off..] == links[off..end] + links[end..];
    LinkRecordsAppend(w.cfg, links[off..end], links[end..], w.s.issues[i].key);
    hide LinkRecords, Walk.LinksAt;
  }

  lemma LinkStands(w: Walk, i: nat, off: nat)
    requires w.Shape() && w.cfg.issueLinks && i < w.N() && off <= |w.LinksAt(i)| && w.IssueOk(i)
    requires w.LinkStep(i, off).Some? ==> w.On(w.LinkStep(i, off).value)
    ensures Stands(w, OrParent(w.LinkChunk(i, off), w.Parent(i)), w.LinkStep(i, off),
                   w.LinkRest(i, off) + w.LinksFrom(i + 1) + w.RestAfterLinks())
  {
    hide Repeats, OrParent, Listed, Entities, Walk.Rest, Walk.LinksFrom, Walk.RestAfterLinks, Walk.LinkRest, Walk.LinkChunk,
         Walk.IssueOk;
    var end := w.End(off, |w.LinksAt(i)|, w.cfg.EntityPageSize());
    LinkFits(w, i, off);
    LinkChunkRest(w, i, off, end);
    LinkRests(w, i, off, end);
  }

  lemma Shift<T>(a: seq<T>, b: seq<T>, c: seq<T>, d: seq<T>)
    ensures a + (b + c + d) == a + b + c + d
  {
  }

  lemma Assoc<T>(a: seq<T>, b: seq<T>, c: seq<T>)
    ensures a + (b + c) == a + b + c
  {
  }

  lemma AtLinksRest(w: Walk, i: nat)
    requires w.Shape() && w.On(AtLinks(i))
    ensures w.Rest(AtLinks(i)) == w.LinksFrom(i) + w.RestAfterLinks()
  {
    hide Walk.LinksFrom, Walk.RestAfterLinks;
  }

  lemma AfterLinksRest(w: Walk, i: nat)
    requires w.Shape() && w.cfg.issueLinks && i < w.N()
    ensures w.RestOpt(w.AfterLinksOf(i)) == [] + w.LinksFrom(i + 1) + w.RestAfterLinks()
  {
    Unite(w.LinksFrom(i + 1), w.RestAfterLinks());
    if w.s.More(i + 1) {
      AtLinksRest(w, i + 1);
      hide Walk.Rest, Walk.LinksFrom, Walk.RestAfterLinks;
    } else {
      PhaseRests(w);
      assert w.LinksFrom(i + 1) == [];
      hide Walk.Rest, Walk.LinksFrom, Walk.RestAfterLinks, Walk.LogPlace, Walk.RestOpt;
      assert [] + w.RestAfterLinks() == w.RestAfterLinks();
    }
  }

  lemma LinkStepRest(w: Walk, i: nat, off: nat, end: nat)
    requires w.Shape() && w.cfg.issueLinks && i < w.N() && off <= end <= |w.LinksAt(i)|
    requires end == w.End(off, |w.LinksAt(i)|, w.cfg.EntityPageSize())
    ensures w.RestOpt(w.LinkStep(i, off)) == w.LinkRest(i, end) + w.LinksFrom(i + 1) + w.RestAfterLinks()
  {
    if end == |w.LinksAt(i)| {
      LastLinkRest(w, i, off);
    } else {
      InLinksRest(w, i, end);
      hide Walk.LinksFrom, Walk.RestAfterLinks, Walk.LinkRest, Walk.Rest;
    }
  }

  lemma LastLinkRest(w: Walk, i: nat, off: nat)
    requires w.Shape() && w.cfg.issueLinks && i < w.N() && off <= |w.LinksAt(i)|
    requires |w.LinksAt(i)| == w.End(off, |w.LinksAt(i)|, w.cfg.EntityPageSize())
    ensures w.LinkStep(i, off).Some? ==> w.On(w.LinkStep(i, off).value)
    ensures w.RestOpt(w.LinkStep(i, off)) == w.LinkRest(i, |w.LinksAt(i)|) + w.LinksFrom(i + 1) + w.RestAfterLinks()
  {
    AfterLinksRest(w, i);
    assert w.LinkStep(i, off) == w.AfterLinksOf(i);
    assert w.LinkRest(i, |w.LinksAt(i)|) == [];
    hide Walk.LinksFrom, Walk.RestAfterLinks, Walk.Rest, Walk.RestOpt, Walk.AfterLinksOf, Walk.LinkRest, Walk.LinkStep;
  }

  lemma InLinksRest(w: Walk, i: nat, off: nat)
    requires w.Shape() && w.On(InLinks(i, off))
    ensures w.Rest(InLinks(i, off)) == w.LinkRest(i, off) + w.LinksFrom(i + 1) + w.RestAfterLinks()
  {
    hide Walk.LinkRest, Walk.LinksFrom, Walk.RestAfterLinks;
  }

  lemma LinkRests(w: Walk, i: nat, off: nat, end: nat)
    requires w.Shape() && w.cfg.issueLinks && i < w.N() && off <= end <= |w.LinksAt(i)|
    requires end == w.End(off, |w.LinksAt(i)|, w.cfg.EntityPageSize())
    requires w.LinkRest(i, off) == w.LinkChunk(i, off) + w.LinkRest(i, end)
    ensures w.LinkChunk(i, off) + w.RestOpt(w.LinkStep(i, off)) == w.LinkRest(i, off) + w.LinksFrom(i + 1) + w.RestAfterLinks()
  {
    LinkStepRest(w, i, off, end);
    hide Walk.LinksFrom, Walk.RestAfterLinks, Walk.LinkStep, Walk.RestOpt, Walk.LinkChunk, Walk.LinkRest;
    Shift(w.LinkChunk(i, off), w.LinkRest(i, end), w.LinksFrom(i + 1), w.RestAfterLinks());
  }

  lemma LogFits(w: Walk, i: nat, h: nat, off: nat)
    requires w.Shape() && i < w.N() && h < |w.s.histories[i]| && off <= |w.ItemsAt(i, h)|
    ensures PageOf(w, OrParent(w.LogChunk(i, h, off), w.Parent(i)), w.LogChunk(i, h, off))
  {
    hide Repeats, PageOf, OrParent;
    var items := w.ItemsAt(i, h);
    var end := w.End(off, |items|, w.cfg.EntityPageSize());
    var issue, history := w.s.issues[i], w.s.histories[i][h];
    ItemRecordsAre(ProjectName(w.cfg, issue.key), if issue.id.Numeric? then issue.id.id else 0,
                   if history.id.Some? then history.id.value else 0, items[off..end], off);
    OrParentStands(w, w.LogChunk(i, h, off), i);
  }

  lemma ItemsChunkRest(w: Walk, i: nat, h: nat, off: nat, end: nat)
    requires w.Shape() && i < w.N() && h < |w.s.histories[i]| && off <= end <= |w.ItemsAt(i, h)|
    requires end == w.End(off, |w.ItemsAt(i, h)|, w.cfg.EntityPageSize())
    ensures w.HistoryRest(i, h, off) == w.LogChunk(i, h, off) + w.HistoryRest(i, h, end)
  {
    var items := w.ItemsAt(i, h);
    var issue, history := w.s.issues[i], w.s.histories[i][h];
    assert items[off..] == items[off..end] + items[end..];
    ItemRecordsAppend(ProjectName(w.cfg, issue.key), if issue.id.Numeric? then issue.id.id else 0,
                      if history.id.Some? then history.id.value else 0, items[off..end], items[end..], off);
    hide ItemRecords, Walk.ItemsAt;
  }

  lemma LogStands(w: Walk, i: nat, h: nat, off: nat)
    requires w.Shape() && w.cfg.changelog && i < w.N() && h < |w.s.histories[i]| && off <= |w.ItemsAt(i, h)|
    requires off == 0 || off < |w.ItemsAt(i, h)|
    requires w.LogStep(i, h, off).Some? ==> w.On(w.LogStep(i, h, off).value)
    ensures Stands(w, OrParent(w.LogChunk(i, h, off), w.Parent(i)), w.LogStep(i, h, off),
                   w.LogRest(i, h, off) + w.LogFrom(i + 1) + w.RestAfterLog())
  {
    hide Repeats, OrParent, Listed, Entities, Walk.Rest, Walk.LogFrom, Walk.RestAfterLog, Walk.LogRest, Walk.LogChunk,
         Walk.HistoryRest;
    var end := w.End(off, |w.ItemsAt(i, h)|, w.cfg.EntityPageSize());
    LogFits(w, i, h, off);
    ItemsChunkRest(w, i, h, off, end);
    LogRests(w, i, h, off, end);
  }

  lemma AfterLogRest(w: Walk, i: nat)
    requires w.Shape() && w.cfg.changelog && i < w.N()
    ensures w.RestOpt(w.AfterLogOf(i)) == [] + w.LogFrom(i + 1) + w.RestAfterLog()
  {
    Unite(w.LogFrom(i + 1), w.RestAfterLog());
    if w.s.More(i + 1) {
      assert w.Rest(AtLog(i + 1)) == w.LogFrom(i + 1) + w.RestAfterLog();
      hide Walk.LogFrom, Walk.RestAfterLog, Walk.Rest;
    } else {
      assert w.LogFrom(i + 1) == [];
      PhaseRests(w);
      hide Walk.LogFrom, Walk.RestAfterLog, Walk.Rest, Walk.RestOpt, Walk.SprintPlace;
      assert [] + w.RestAfterLog() == w.RestAfterLog();
    }
  }

  lemma Unite<T>(a: seq<T>, b: seq<T>)
    ensures [] + a + b == a + b
  {
  }

  /** A history with no items left is the beginning of the next one. */
  lemma HistoryDone(w: Walk, i: nat, h: nat)
    requires w.Shape() && i < w.N() && h < |w.s.histories[i]|
    ensures w.LogRest(i, h, |w.ItemsAt(i, h)|) == w.LogRest(i, h + 1, 0)
    ensures h + 1 == |w.s.histories[i]| ==> w.LogRest(i, h + 1, 0) == []
  {
    assert w.HistoryRest(i, h, |w.ItemsAt(i, h)|) == [];
    hide Walk.HistoryRest;
    assert w.HistoriesFrom(i, h + 1) == w.LogRest(i, h + 1, 0);
  }

  /** What the walk still brings after a chunk of items, in terms of what is left of the history. */
  lemma LogStepRest(w: Walk, i: nat, h: nat, off: nat, end: nat)
    requires w.Shape() && w.cfg.changelog && i < w.N() && h < |w.s.histories[i]| && off <= end <= |w.ItemsAt(i, h)|
    requires end == w.End(off, |w.ItemsAt(i, h)|, w.cfg.EntityPageSize())
    ensures w.RestOpt(w.LogStep(i, h, off)) == w.LogRest(i, h, end) + w.LogFrom(i + 1) + w.RestAfterLog()
  {
    hide Walk.LogFrom, Walk.RestAfterLog, Walk.SprintPlace, Walk.LogRest;
    if end == |w.ItemsAt(i, h)| {
      HistoryDone(w, i, h);
      AfterLogRest(w, i);
    }
  }

  lemma LogChunkRest(w: Walk, i: nat, h: nat, off: nat, end: nat)
    requires w.Shape() && i < w.N() && h < |w.s.histories[i]| && off <= end <= |w.ItemsAt(i, h)|
    requires end == w.End(off, |w.ItemsAt(i, h)|, w.cfg.EntityPageSize())
    requires w.HistoryRest(i, h, off) == w.LogChunk(i, h, off) + w.HistoryRest(i, h, end)
    ensures w.LogRest(i, h, off) == w.LogChunk(i, h, off) + w.LogRest(i, h, end)
  {
    hide Walk.HistoryRest, Walk.HistoriesFrom, Walk.LogChunk;
    Shift(w.LogChunk(i, h, off), w.HistoryRest(i, h, end), w.HistoriesFrom(i, h + 1), []);
  }

  lemma LogRests(w: Walk, i: nat, h: nat, off: nat, end: nat)
    requires w.Shape() && w.cfg.changelog && i < w.N() && h < |w.s.histories[i]| && off <= end <= |w.ItemsAt(i, h)|
    requires end == w.End(off, |w.ItemsAt(i, h)|, w.cfg.EntityPageSize())
    requires w.HistoryRest(i, h, off) == w.LogChunk(i, h, off) + w.HistoryRest(i, h, end)
    ensures w.LogChunk(i, h, off) + w.RestOpt(w.LogStep(i, h, off)) == w.LogRest(i, h, off) + w.LogFrom(i + 1) + w.RestAfterLog()
  {
    LogStepRest(w, i, h, off, end);
    LogChunkRest(w, i, h, off, end);
    hide Walk.LogFrom, Walk.RestAfterLog, Walk.LogStep, Walk.RestOpt, Walk.LogChunk, Walk.LogRest;
    Shift(w.LogChunk(i, h, off), w.LogRest(i, h, end), w.LogFrom(i + 1), w.RestAfterLog());
  }

  lemma ParentStands(w: Walk, i: nat)
    requires i < w.N()
    ensures PageOf(w, [w.Parent(i)], [])
  {
    OrParentStands(w, [], i);
  }

  /** The page that closes an issue: its own record only. */
  lemma LogEndStands(w: Walk, i: nat)
    requires w.Shape() && w.cfg.changelog && i < w.N() && w.s.histories[i] != []
    ensures Stands(w, [w.Parent(i)], w.LogStep(i, |w.s.histories[i]|, 0),
                   w.LogRest(i, |w.s.histories[i]|, 0) + w.LogFrom(i + 1) + w.RestAfterLog())
  {
    hide Repeats, Listed, Entities, Walk.Rest, Walk.LogFrom, Walk.RestAfterLog;
    ParentStands(w, i);
    AfterLogRest(w, i);
    Assoc([], [] + w.LogFrom(i + 1), w.RestAfterLog());
  }

  /** The page of a first issue without a history. */
  lemma FirstEmptyStands(w: Walk)
    requires w.Shape() && w.cfg.changelog && 0 < w.N() && w.s.histories[0] == []
    ensures Stands(w, [w.Parent(0)], w.LogStep(0, 0, 0), w.Rest(AtLog(0)))
  {
    ParentStands(w, 0);
    PhaseRests(w);
    hide Repeats, Listed, Entities;
  }

  lemma SprintPageFits(board: Record, withBoard: bool, m: BoardMapping, sprints: seq<Sprint>)
    requires board.BoardRecord? && |sprints| <= 25 && (withBoard || sprints != [])
    requires forall i, j :: 0 <= i < j < |sprints| ==> sprints[i].id != sprints[j].id
    ensures var rs := (if withBoard then [board] else []) + SprintRecords(m, sprints);
      1 <= |rs| <= 100 && !Repeats(rs) && Entities(rs) == rs && forall r :: r in rs ==> !r.IssueRecord?
  {
    var some := SprintRecords(m, sprints);
    SprintRecordsAre(m, sprints);
    hide SprintRecords;
    if withBoard {
      BoardFirst(board, some);
      FilterAll(IsEntity, [board] + some);
    } else {
      assert [] + some == some;
      FilterAll(IsEntity, some);
    }
  }

  lemma BoardFirst(board: Record, sprints: seq<Record>)
    requires board.BoardRecord? && !Repeats(sprints) && forall r :: r in sprints ==> r.SprintRecord?
    ensures !Repeats([board] + sprints)
  {
    var rs := [board] + sprints;
    forall i, j | 0 <= i < j < |rs|
      ensures rs[i].Identity() != rs[j].Identity()
    {
      assert rs[j] == sprints[j - 1] && sprints[j - 1] in sprints;
      assert i > 0 ==> rs[i] == sprints[i - 1];
    }
  }

  lemma SprintStepRest(w: Walk, b: nat, start: nat, end: nat)
    requires w.Shape() && w.On(AtSprints(b, start)) && end <= |w.SprintsAtBoard(b)|
    requires end == w.End(start, |w.SprintsAtBoard(b)|, Min(w.cfg.EntityPageSize(), w.s.sprintWidth))
    ensures w.RestOpt(w.SprintStep(b, start)) == SprintRecords(w.cfg.boards[b], w.SprintsAtBoard(b)[end..]) + w.SprintsFrom(b + 1)
  {
    var tail := SprintRecords(w.cfg.boards[b], w.SprintsAtBoard(b)[end..]);
    if end == |w.SprintsAtBoard(b)| {
      assert tail == [];
      assert tail + w.SprintsFrom(b + 1) == w.SprintsFrom(b + 1);
    } else {
      assert end > 0;
      assert w.SprintRest(b, end) == tail;
    }
  }

  lemma SprintRests(w: Walk, b: nat, start: nat, end: nat)
    requires b < |w.cfg.boards| && start <= end <= |w.SprintsAtBoard(b)|
    requires end == w.End(start, |w.SprintsAtBoard(b)|, Min(w.cfg.EntityPageSize(), w.s.sprintWidth))
    ensures w.SprintRest(b, start) == w.SprintChunk(b, start) + SprintRecords(w.cfg.boards[b], w.SprintsAtBoard(b)[end..])
  {
    hide SprintRecords, Walk.SprintsAtBoard, Walk.BoardRecordAt;
    var sprints, m := w.SprintsAtBoard(b), w.cfg.boards[b];
    var head := if start == 0 then [w.BoardRecordAt(b)] else [];
    SprintRecordsSlice(m, sprints, start, end);
    Assoc(head, SprintRecords(m, sprints[start..end]), SprintRecords(m, sprints[end..]));
  }

  lemma SprintRecordsSlice(m: BoardMapping, sprints: seq<Sprint>, start: nat, end: nat)
    requires start <= end <= |sprints|
    ensures SprintRecords(m, sprints[start..]) == SprintRecords(m, sprints[start..end]) + SprintRecords(m, sprints[end..])
  {
    assert sprints[start..] == sprints[start..end] + sprints[end..];
    SprintRecordsAppend(m, sprints[start..end], sprints[end..]);
  }

  lemma SprintFits(w: Walk, b: nat, start: nat)
    requires w.Shape() && w.On(AtSprints(b, start)) && w.BoardOk(b)
    ensures var rs := w.SprintChunk(b, start);
      1 <= |rs| <= 100 && !Repeats(rs) && Entities(rs) == rs && forall r :: r in rs ==> !r.IssueRecord?
  {
    hide Repeats, SprintRecords;
    var end := w.End(start, |w.SprintsAtBoard(b)|, Min(w.cfg.EntityPageSize(), w.s.sprintWidth));
    SprintPageFits(w.BoardRecordAt(b), start == 0, w.cfg.boards[b], w.SprintsAtBoard(b)[start..end]);
  }

  lemma SprintStands(w: Walk, b: nat, start: nat)
    requires w.Shape() && w.On(AtSprints(b, start)) && w.BoardOk(b)
    ensures Stands(w, w.SprintChunk(b, start), w.SprintStep(b, start), w.Rest(AtSprints(b, start)))
  {
    var sprints, m := w.SprintsAtBoard(b), w.cfg.boards[b];
    var end := w.End(start, |sprints|, Min(w.cfg.EntityPageSize(), w.s.sprintWidth));
    assert start <= end <= |sprints|;
    assert w.Rest(AtSprints(b, start)) == w.SprintRest(b, start) + w.SprintsFrom(b + 1);
    hide Walk.SprintChunk, Walk.SprintRest, Walk.SprintsFrom, Walk.Rest, Walk.RestOpt, Walk.SprintsAtBoard, Walk.End, Walk.SprintStep,
         Walk.On, Walk.Shape, Walk.BoardOk, Repeats, SprintRecords, Entities, Listed, Min;
    SprintFits(w, b, start);
    SprintStepRest(w, b, start, end);
    SprintRests(w, b, start, end);
    Assoc(w.SprintChunk(b, start), SprintRecords(m, sprints[end..]), w.SprintsFrom(b + 1));
  }

  lemma {:induction false} IssueRecordsKind(cfg: Config, issues: seq<Issue>)
    ensures forall r :: r in IssueRecords(cfg, issues) ==> r.IssueRecord?
    ensures Entities(IssueRecords(cfg, issues)) == []
  {
    hide IssueRecordOf;
    if issues != [] {
      IssueRecordsKind(cfg, issues[1..]);
      assert IssueRecordOf(cfg, issues[0]).IssueRecord? by { IsIssueRecord(cfg, issues[0]); }
      assert IssueRecords(cfg, issues)[1..] == IssueRecords(cfg, issues[1..]);
    }
  }

  lemma IsIssueRecord(cfg: Config, issue: Issue)
    ensures IssueRecordOf(cfg, issue).IssueRecord?
  {
  }

  lemma {:induction false} IssueRecordsListed(w: Walk, issues: seq<Issue>)
    requires forall i :: i in issues ==> i in w.s.issues
    ensures forall r :: r in IssueRecords(w.cfg, issues) ==> Listed(w, r)
  {
    hide IssueRecordOf;
    if issues != [] {
      IssueRecordsListed(w, issues[1..]);
      assert issues[0] in w.s.issues;
    }
  }

  lemma IssuesFit(w: Walk, k: nat, end: nat)
    requires k < end <= w.N() && end - k <= 100
    requires forall i, j :: 0 <= i < j < w.N() ==> w.s.issues[i].key != w.s.issues[j].key
    ensures PageOf(w, IssueRecords(w.cfg, w.s.issues[k..end]), [])
  {
    var issues := w.s.issues[k..end];
    IssueRecordsAre(w.cfg, issues);
    IssueRecordsKind(w.cfg, issues);
    IssueRecordsListed(w, issues);
    hide Repeats, Listed, IssueRecords, Entities;
  }

  lemma IssueStands(w: Walk, k: nat)
    requires w.Shape() && w.On(AtIssues(k)) && k < w.N()
    requires forall i, j :: 0 <= i < j < w.N() ==> w.s.issues[i].key != w.s.issues[j].key
    requires w.Advance(AtIssues(k)).Some? ==> w.On(w.Advance(AtIssues(k)).value)
    ensures Stands(w, w.IssueChunk(k), w.Advance(AtIssues(k)), w.Rest(AtIssues(k)))
    ensures forall r :: r in w.IssueChunk(k) ==> r.IssueRecord?
  {
    hide Repeats, Listed, Entities, IssueRecords;
    PhaseRests(w);
    var end := w.End(k, w.N(), Min(w.cfg.pageSize, w.s.width));
    IssuesFit(w, k, end);
    IssueRecordsKind(w.cfg, w.s.issues[k..end]);
  }
}
