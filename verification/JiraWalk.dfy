/** Every pull from a place of the walk returns that place's page and leads to the next place. */
module JiraWalk {
  import opened Wrappers
  import opened JiraKeys
  import opened JiraCursorCodec
  import opened JiraPaging
  import opened JiraServer

  ghost predicate Less(a: (nat, nat, nat, nat), b: (nat, nat, nat, nat)) {
    || a.0 < b.0
    || (a.0 == b.0 && a.1 < b.1)
    || (a.0 == b.0 && a.1 == b.1 && a.2 < b.2)
    || (a.0 == b.0 && a.1 == b.1 && a.2 == b.2 && a.3 < b.3)
  }

  /** `next` is a place of the walk with a smaller measure than `p`, or there is none. */
  ghost predicate Follows(w: Walk, p: Place, next: Option<Place>)
    requires w.Shape() && w.On(p)
  {
    next.Some? ==> w.On(next.value) && Less(w.Measure(next.value), w.Measure(p))
  }

  lemma PhaseFollows(w: Walk, p: Place)
    requires w.Shape() && w.On(p)
    ensures !p.AtSprints? ==> Follows(w, p, w.SprintPlace())
    ensures p.AtIssues? || p.AtLinks? || p.InLinks? ==> Follows(w, p, w.LogPlace())
    ensures p.AtIssues? ==> Follows(w, p, w.LinkPlace())
  {
  }

  lemma LinkFollows(w: Walk, p: Place)
    requires w.Shape() && w.Landed(p) && (p.AtLinks? || p.InLinks?)
    ensures Follows(w, p, w.Advance(p))
  {
    PhaseFollows(w, p);
  }

  lemma LogFollows(w: Walk, p: Place)
    requires w.Shape() && w.Landed(p) && (p.AtLog? || p.InLog?)
    ensures Follows(w, p, w.Advance(p))
  {
    PhaseFollows(w, p);
  }

  lemma SprintFollows(w: Walk, p: Place)
    requires w.Shape() && w.Landed(p) && p.AtSprints?
    ensures Follows(w, p, w.Advance(p))
  {
  }

  /** The walk goes on from another place of the walk, with a smaller measure. */
  lemma AdvanceDecreases(w: Walk, p: Place)
    requires w.Shape() && w.Landed(p)
    ensures Follows(w, p, w.Advance(p))
  {
    match p
    case AtSprints(_, _) => SprintFollows(w, p);
    case AtLinks(_) => LinkFollows(w, p);
    case InLinks(_, _) => LinkFollows(w, p);
    case AtLog(_) => LogFollows(w, p);
    case InLog(_, _, _) => LogFollows(w, p);
    case AtIssues(_) => PhaseFollows(w, p);
  }

  // ---------- the client's answers ----------

  lemma SearchAnswer(w: Walk, k: nat, max: nat)
    requires w.Valid() && k <= w.N() && (k == 0 || w.s.More(k))
    ensures w.s.AsClient().search(w.StartToken(k), max) == Some(w.s.SearchAt(k, max))
  {
    if k > 0 {
      TokenIndexFinds(w.s.tokens, k);
    }
  }

  lemma IssueAnswer(w: Walk, i: nat)
    requires w.Valid() && i < w.N()
    ensures Answers(w, i)
  {
    KeyIndexFinds(w.s.issues, i);
  }

  lemma TokenFacts(w: Walk, k: nat)
    requires w.Valid() && k <= w.N()
    ensures w.s.tokens[k] != ""
    ensures forall j :: 0 <= j < k ==> w.s.tokens[j] != w.s.tokens[k]
  {
  }

  lemma IssueFacts(w: Walk, i: nat)
    requires w.Valid() && i < w.N()
    ensures w.s.IssueValid(w.cfg, w.s.issues[i]) && w.s.HistoriesValid(w.cfg, w.s.histories[i])
    ensures Bounded(w.s.issues[i].key, 128)
  {
    KeyIsBounded(w.s.issues[i].key);
  }

  lemma KeyIsBounded(key: string)
    requires IsIssueKey(key) && |key| <= 128
    ensures Bounded(key, 128)
  {
    var d :| 0 <= d < |key| && key[d] == '-' && IsProjectKey(key[..d]) && IsIssueNumber(key[d + 1..]);
    forall i | 0 <= i < |key|
      ensures key[i] as int < 0x80 && key[i] != 0 as char
    {
      assert i < d ==> key[i] == key[..d][i];
      assert i > d ==> key[i] == key[d + 1..][i - d - 1];
    }
    UnitsAscii(key);
  }

  lemma SearchRows(w: Walk, k: nat, max: nat)
    requires w.Shape() && k <= w.N() && max >= 1
    ensures var page := w.s.SearchAt(k, max);
            var end := w.End(k, w.N(), Min(max, w.s.width));
            && page.issues == w.s.issues[k..end] && |page.issues| <= max && end <= w.N()
            && (k < w.N() ==> k < end)
            && page.nextToken == (if k < w.N() then w.TokenTo(end) else None)
            && (page.isLast.Some? ==> page.isLast == Some(page.nextToken.None?))
  {
  }

  /** What a search answers is not refused. */
  lemma PageAccepted(w: Walk, k: nat, max: nat)
    requires w.Valid() && k <= w.N() && max >= 1
    requires k < w.N() ==> w.Heard(w.End(k, w.N(), Min(max, w.s.width)))
    ensures var page := w.s.SearchAt(k, max);
            var end := w.End(k, w.N(), Min(max, w.s.width));
            && page.issues == w.s.issues[k..end] && |page.issues| <= max && end <= w.N()
            && (k < w.N() ==> k < end)
            && Sent(page.nextToken) == (if k < w.N() then w.TokenTo(end) else None)
            && !TokenRefused(page, w.StartToken(k))
  {
    assert w.Shape();
    var end := w.End(k, w.N(), Min(max, w.s.width));
    SearchRows(w, k, max);
    TokenFacts(w, end);
    hide Walk.Valid, Walk.Shape, Server.SearchAt, Walk.End;
  }

  ghost predicate Scans(w: Walk, i: nat) {
    ScanIssue(w.s.AsClient(), w.StartToken(i))
    == Ok(if i < w.N() then (Some(w.s.issues[i]), w.TokenTo(i + 1)) else (None, None))
  }

  /** The one-issue search before issue i finds it, and the token after it. */
  lemma ScanFinds(w: Walk, i: nat)
    requires w.Valid() && i <= w.N() && (i == 0 || w.s.More(i)) && (i < w.N() ==> w.Heard(i + 1))
    ensures Scans(w, i)
  {
    SearchAnswer(w, i, 1);
    PageAccepted(w, i, 1);
    var end := w.End(i, w.N(), Min(1, w.s.width));
    if i < w.N() {
      IssueFacts(w, i);
      assert end == i + 1 && w.s.issues[i..end] == [w.s.issues[i]];
    }
    hide Walk.Valid, Server.Valid, Server.AsClient, Server.SearchAt, Server.IssueValid, Server.HistoriesValid, TokenRefused;
    ScanOne(w.s.AsClient(), w.StartToken(i), w.s.SearchAt(i, 1));
  }

  lemma ScanOne(client: Client, token: Option<string>, page: SearchPage)
    requires client.search(token, 1) == Some(page) && |page.issues| <= 1 && !TokenRefused(page, token)
    requires if page.issues == [] then Sent(page.nextToken).None? else Bounded(page.issues[0].key, 128)
    ensures ScanIssue(client, token)
         == Ok(if page.issues == [] then (None, None) else (Some(page.issues[0]), Sent(page.nextToken)))
  {
  }

  // ---------- the pages ----------

  lemma PhaseCursors(w: Walk)
    requires w.Shape()
    ensures w.CursorOfOpt(w.SprintPlace()) == SprintPhase(w.cfg)
    ensures w.CursorOfOpt(w.LogPlace()) == AfterLinks(w.cfg)
    ensures w.CursorOfOpt(w.LinkPlace()) == FirstEntityPhase(w.cfg)
  {
  }

  lemma LinkNext(w: Walk, i: nat, off: nat)
    requires w.Shape() && w.cfg.issueLinks && i < w.N() && off <= |w.LinksAt(i)|
    ensures AfterLinkChunk(w.cfg, w.s.issues[i].key, w.End(off, |w.LinksAt(i)|, w.cfg.EntityPageSize()),
                           |w.LinksAt(i)|, w.TokenTo(i + 1))
         == w.CursorOfOpt(w.LinkStep(i, off))
  {
    PhaseCursors(w);
  }

  lemma LinkPageOf(cfg: Config, request: Option<string>, key: string, issue: Issue, off: nat, token: Option<string>,
                   links: seq<RawLink>, parent: Record, end: nat)
    requires !IssueRefused(cfg, issue) && parent == IssueRecordOf(cfg, issue) && issue.key == key
    requires issue.links == Some(links) && |links| <= 1000 && off <= |links|
    requires end == Min(off + cfg.EntityPageSize(), |links|)
    requires forall l :: l in links ==> LinkOf(cfg, l, key).Ok?
    ensures LinkPage(cfg, request, key, issue, off, token)
         == Validated(request, OrParent(LinkRecords(cfg, links[off..end], key), parent),
                      AfterLinkChunk(cfg, key, end, |links|, token))
  {
    hide IssueRefused, IssueRecordOf, LinkOf, LinkRecords, Validated, AfterLinkChunk;
    assert forall l :: l in links[off..end] ==> l in links;
  }

  lemma LinkPageAt(w: Walk, request: Option<string>, i: nat, off: nat)
    requires w.Shape() && w.cfg.issueLinks && i < w.N() && off <= |w.LinksAt(i)| && w.IssueOk(i)
    ensures LinkPage(w.cfg, request, w.s.issues[i].key, w.s.issues[i], off, w.TokenTo(i + 1))
         == Validated(request, OrParent(w.LinkChunk(i, off), w.Parent(i)), w.CursorOfOpt(w.LinkStep(i, off)))
  {
    var end := w.End(off, |w.LinksAt(i)|, w.cfg.EntityPageSize());
    LinkPageOf(w.cfg, request, w.s.issues[i].key, w.s.issues[i], off, w.TokenTo(i + 1), w.LinksAt(i), w.Parent(i), end);
    LinkNext(w, i, off);
  }

  lemma LogNext(w: Walk, i: nat, h: nat, off: nat)
    requires w.Shape() && w.cfg.changelog && i < w.N() && h < |w.s.histories[i]| && off <= |w.ItemsAt(i, h)|
    ensures AfterItemChunk(w.cfg, w.s.issues[i].key, h, w.End(off, |w.ItemsAt(i, h)|, w.cfg.EntityPageSize()),
                           |w.ItemsAt(i, h)|, w.s.LogAt(i, h).total, w.TokenTo(i + 1))
         == w.CursorOfOpt(w.LogStep(i, h, off))
  {
    PhaseCursors(w);
  }

  lemma LogPageOf(client: Client, cfg: Config, request: Option<string>, state: Cursor, key: string, issue: Issue, h: nat,
                  off: nat, token: Option<string>, page: HistoryPage, items: seq<Item>, parent: Record, end: nat)
    requires state.Changelog? && !IssueRefused(cfg, issue) && parent == IssueRecordOf(cfg, issue) && issue.key == key && issue.id.Numeric?
    requires client.getChangeLogs(key, h) == Some(page)
    requires |page.histories| == 1 && page.histories[0].items == Some(items) && |items| <= 1000 && off <= |items|
    requires page.histories[0].id.Some? && page.histories[0].dated
    requires page.startAt.None? || page.startAt.value == h
    requires page.total.None? || page.total.value > h
    requires end == Min(off + cfg.EntityPageSize(), |items|)
    requires cfg.ProjectOfKey(key).Some? && forall item :: item in items ==> !item.Malformed?
    ensures ChangelogPage(client, cfg, request, state, key, issue, h, off, token)
         == Validated(request,
                      OrParent(ItemRecords(ProjectName(cfg, key), issue.id.id, page.histories[0].id.value, items[off..end], off), parent),
                      AfterItemChunk(cfg, key, h, end, |items|, page.total, token))
  {
    hide IssueRefused, IssueRecordOf, ItemRecords, Validated, AfterItemChunk, cfg.ProjectOfKey;
    assert forall item :: item in items[off..end] ==> item in items;
  }

  lemma LogPageAt(w: Walk, request: Option<string>, state: Cursor, i: nat, h: nat, off: nat)
    requires w.Shape() && w.cfg.changelog && i < w.N() && h < |w.s.histories[i]| && off <= |w.ItemsAt(i, h)| && w.IssueOk(i)
    requires w.s.AsClient().getChangeLogs(w.s.issues[i].key, h) == Some(w.s.LogAt(i, h))
    requires state.Changelog?
    ensures ChangelogPage(w.s.AsClient(), w.cfg, request, state, w.s.issues[i].key, w.s.issues[i], h, off, w.TokenTo(i + 1))
         == Validated(request, OrParent(w.LogChunk(i, h, off), w.Parent(i)), w.CursorOfOpt(w.LogStep(i, h, off)))
  {
    var items := w.ItemsAt(i, h);
    assert w.s.histories[i][h] in w.s.histories[i];
    var end := w.End(off, |items|, w.cfg.EntityPageSize());
    LogPageOf(w.s.AsClient(), w.cfg, request, state, w.s.issues[i].key, w.s.issues[i], h, off, w.TokenTo(i + 1),
              w.s.LogAt(i, h), items, w.Parent(i), end);
    LogNext(w, i, h, off);
  }

  /** Past the last history, and at an issue that has none. */
  lemma LogEndAt(w: Walk, request: Option<string>, state: Cursor, i: nat, token: Option<string>)
    requires w.Shape() && w.cfg.changelog && i < w.N() && w.IssueOk(i) && state.Changelog?
    requires var h := |w.s.histories[i]|; w.s.AsClient().getChangeLogs(w.s.issues[i].key, h) == Some(w.s.LogAt(i, h))
    ensures ChangelogPage(w.s.AsClient(), w.cfg, request, state, w.s.issues[i].key, w.s.issues[i], |w.s.histories[i]|, 0, token)
         == Validated(request, [w.Parent(i)], NextIssueOrSprints(w.cfg, state.token))
  {
  }

  lemma SprintNext(w: Walk, b: nat, start: nat)
    requires w.Shape() && w.On(AtSprints(b, start))
    ensures var total := |w.SprintsAtBoard(b)|;
            var end := w.End(start, total, Min(w.cfg.EntityPageSize(), w.s.sprintWidth));
            AfterSprintPage(w.cfg, b, end, end >= total) == w.CursorOfOpt(w.SprintStep(b, start))
  {
  }

  lemma SprintRows(w: Walk, b: nat, start: nat)
    requires w.Shape() && w.On(AtSprints(b, start)) && w.BoardOk(b)
    ensures var m, all := w.cfg.boards[b], w.SprintsAtBoard(b);
            var page := w.s.SprintsAt(m.boardId, start, w.cfg.EntityPageSize());
            var end := w.End(start, |all|, Min(w.cfg.EntityPageSize(), w.s.sprintWidth));
            && page.values == all[start..end] && |page.values| <= w.cfg.EntityPageSize() && end <= |all|
            && page.total == Some(|all|) && (page.startAt.Some? ==> page.startAt == Some(start))
            && (page.isLast.Some? ==> page.isLast == Some(end == |all|))
            && (end < |all| ==> start < end)
            && (forall s :: s in page.values ==> s.wellFormed)
  {
    hide BoardOf;
    var m, all := w.cfg.boards[b], w.SprintsAtBoard(b);
    var page := w.s.SprintsAt(m.boardId, start, w.cfg.EntityPageSize());
    assert forall s :: s in page.values ==> s in w.s.sprints[m.boardId];
  }

  /** A sprint page that is in order, ending before number `end`. */
  ghost predicate InOrder(cfg: Config, b: nat, start: nat, page: SprintPage, end: nat, total: nat)
    requires b < |cfg.boards|
  {
    var m := cfg.boards[b];
    && BoardOf(cfg, m, Board(m.boardId, true)) == Ok(BoardRecord(m.projectId, m.boardId))
    && |page.values| <= cfg.EntityPageSize() && page.total == Some(total) && start + |page.values| == end <= total
    && (page.startAt.Some? ==> page.startAt == Some(start))
    && (page.isLast.Some? ==> page.isLast == Some(end == total))
    && (end < total || start > 0 ==> page.values != [])
    && forall s :: s in page.values ==> s.wellFormed
  }

  lemma SprintPageIs(cfg: Config, request: Option<string>, b: nat, start: nat, page: SprintPage, end: nat, total: nat)
    requires b < |cfg.boards| && InOrder(cfg, b, start, page, end, total)
    ensures var m := cfg.boards[b];
            SprintPageOf(cfg, request, b, start, Board(m.boardId, true), page)
            == Validated(request, (if start == 0 then [BoardRecord(m.projectId, m.boardId)] else []) + SprintRecords(m, page.values),
                         AfterSprintPage(cfg, b, end, end >= total))
  {
    hide BoardOf, SprintRecords, Validated, AfterSprintPage;
    var m := cfg.boards[b];
    SprintRecordsEmpty(m, page.values);
    assert [] + SprintRecords(m, page.values) == SprintRecords(m, page.values);
  }

  lemma SprintsInOrder(w: Walk, b: nat, start: nat)
    requires w.Shape() && w.On(AtSprints(b, start)) && w.BoardOk(b)
    ensures var m, total := w.cfg.boards[b], |w.SprintsAtBoard(b)|;
            var page := w.s.SprintsAt(m.boardId, start, w.cfg.EntityPageSize());
            var end := w.End(start, total, Min(w.cfg.EntityPageSize(), w.s.sprintWidth));
            && InOrder(w.cfg, b, start, page, end, total)
            && w.SprintChunk(b, start)
               == (if start == 0 then [BoardRecord(m.projectId, m.boardId)] else []) + SprintRecords(m, page.values)
  {
    SprintRows(w, b, start);
    hide BoardOf, SprintRecords, Server.SprintsValid;
  }

  lemma SprintPageAt(w: Walk, request: Option<string>, b: nat, start: nat)
    requires w.Shape() && w.On(AtSprints(b, start)) && w.BoardOk(b)
    ensures var m := w.cfg.boards[b];
            SprintPageOf(w.cfg, request, b, start, Board(m.boardId, true), w.s.SprintsAt(m.boardId, start, w.cfg.EntityPageSize()))
            == Validated(request, w.SprintChunk(b, start), w.CursorOfOpt(w.SprintStep(b, start)))
  {
    var m, total := w.cfg.boards[b], |w.SprintsAtBoard(b)|;
    var page := w.s.SprintsAt(m.boardId, start, w.cfg.EntityPageSize());
    var end := w.End(start, total, Min(w.cfg.EntityPageSize(), w.s.sprintWidth));
    SprintNext(w, b, start);
    SprintsInOrder(w, b, start);
    hide Walk.SprintsAtBoard, Walk.SprintChunk, Walk.Shape, Walk.On, Walk.End, Walk.BoardOk, Config.EntityPageSize, Walk.CursorOfOpt,
         Walk.SprintStep, AfterSprintPage, SprintPageOf, Validated, Server.SprintsAt, SprintRecords, Min, InOrder;
    SprintPageIs(w.cfg, request, b, start, page, end, total);
  }

  lemma SprintRecordsEmpty(m: BoardMapping, sprints: seq<Sprint>)
    ensures SprintRecords(m, sprints) == [] <==> sprints == []
  {
  }

  lemma IssueAnswered(w: Walk, request: Option<string>, k: nat, client: Client, page: SearchPage)
    requires w.Shape() && w.On(AtIssues(k)) && k < w.N() && w.IssuesOk()
    requires client.search(w.StartToken(k), w.cfg.pageSize) == Some(page)
    requires var end := w.End(k, w.N(), Min(w.cfg.pageSize, w.s.width));
             && page.issues == w.s.issues[k..end] && |page.issues| <= w.cfg.pageSize && k < end <= w.N()
             && Sent(page.nextToken) == w.TokenTo(end) && !TokenRefused(page, w.StartToken(k))
    ensures PullState(client, w.cfg, request, w.CursorOf(AtIssues(k)))
         == Validated(request, w.IssueChunk(k), w.CursorOfOpt(w.Advance(AtIssues(k))))
  {
    hide IssueRefused, IssueRecordOf, TokenRefused;
    PhaseCursors(w);
    assert forall i :: i in page.issues ==> i in w.s.issues;
  }

  /** A pull whose state is the cursor of `p` answers with the page of `p` and leads to the place after it. */
  ghost predicate Pulls(w: Walk, p: Place, request: Option<string>)
    requires w.Shape() && w.Landed(p) && w.Ready(p)
  {
    PullState(w.s.AsClient(), w.cfg, request, w.CursorOf(p)) == Validated(request, w.Emit(p), w.CursorOfOpt(w.Advance(p)))
  }

  /** The client's answers for issue i are those of the server. */
  ghost predicate Answers(w: Walk, i: nat)
    requires w.Shape() && i < w.N()
  {
    var client, key := w.s.AsClient(), w.s.issues[i].key;
    && client.getIssue(key) == Some(w.s.issues[i])
    && forall start: nat :: client.getChangeLogs(key, start) == Some(w.s.LogAt(i, start))
  }

  lemma LinksPull(w: Walk, p: Place, request: Option<string>)
    requires w.Shape() && w.Landed(p) && w.Ready(p) && (p.AtLinks? || p.InLinks?) && Answers(w, p.i)
    requires p.AtLinks? ==> Scans(w, p.i)
    ensures Pulls(w, p, request)
  {
    hide Walk.IssueOk, Walk.LinkStep, LinkPage, Validated, ScanIssue, Server.AsClient;
    hide Server.IssueValid, Walk.LinkChunk;
    var off := if p.AtLinks? then 0 else p.off;
    LinkPageAt(w, request, p.i, off);
    assert PullLinks(w.s.AsClient(), w.cfg, request, w.CursorOf(p))
        == LinkPage(w.cfg, request, w.s.issues[p.i].key, w.s.issues[p.i], off, w.TokenTo(p.i + 1));
  }

  lemma LogPull(w: Walk, p: Place, request: Option<string>)
    requires w.Shape() && w.Landed(p) && w.Ready(p) && (p.AtLog? || p.InLog?) && Answers(w, p.i)
    requires p.AtLog? ==> Scans(w, p.i)
    ensures Pulls(w, p, request)
  {
    hide Walk.IssueOk, ChangelogPage, Validated, ScanIssue, Server.AsClient, Walk.LogChunk, Walk.Parent;
    PhaseCursors(w);
    var i, h, off := p.i, if p.AtLog? then 0 else p.h, if p.AtLog? then 0 else p.off;
    if h == |w.s.histories[i]| {
      LogEndAt(w, request, w.CursorOf(p), i, w.TokenTo(i + 1));
    } else {
      hide Walk.LogStep;
      LogPageAt(w, request, w.CursorOf(p), i, h, off);
    }
    assert PullChangelog(w.s.AsClient(), w.cfg, request, w.CursorOf(p))
        == ChangelogPage(w.s.AsClient(), w.cfg, request, w.CursorOf(p), w.s.issues[i].key, w.s.issues[i], h, off, w.TokenTo(i + 1));
  }

  lemma IssuesPull(w: Walk, k: nat, request: Option<string>)
    requires w.Valid() && w.Landed(AtIssues(k)) && w.Ready(AtIssues(k)) && w.Hears(AtIssues(k))
    ensures Pulls(w, AtIssues(k), request)
  {
    SearchAnswer(w, k, w.cfg.pageSize);
    PageAccepted(w, k, w.cfg.pageSize);
    hide Walk.Valid, Server.Valid, Server.AsClient, Server.SearchAt, Walk.IssuesOk, TokenRefused, PullState, Validated, Walk.IssueChunk;
    IssueAnswered(w, request, k, w.s.AsClient(), w.s.SearchAt(k, w.cfg.pageSize));
  }

  /** The client's answers for a board are those of the server. */
  lemma BoardAnswer(w: Walk, request: Option<string>, b: nat, start: nat)
    requires w.Shape() && w.On(AtSprints(b, start)) && w.BoardOk(b)
    ensures var m := w.cfg.boards[b];
            PullState(w.s.AsClient(), w.cfg, request, Sprints(b, start))
            == SprintPageOf(w.cfg, request, b, start, Board(m.boardId, true), w.s.SprintsAt(m.boardId, start, w.cfg.EntityPageSize()))
  {
    var m := w.cfg.boards[b];
    hide SprintPageOf, BoardOf, Server.SprintsAt, Server.SprintsValid, Config.EntityPageSize;
    assert w.s.AsClient().getBoard(m.boardId) == Some(Board(m.boardId, true));
    assert w.s.AsClient().getSprints(m.boardId, start, w.cfg.EntityPageSize())
        == Some(w.s.SprintsAt(m.boardId, start, w.cfg.EntityPageSize()));
    hide Server.AsClient;
    assert PullSprints(w.s.AsClient(), w.cfg, request, b, start)
        == SprintPageOf(w.cfg, request, b, start, Board(m.boardId, true), w.s.SprintsAt(m.boardId, start, w.cfg.EntityPageSize()));
  }

  lemma SprintsPull(w: Walk, p: Place, request: Option<string>)
    requires w.Shape() && w.Landed(p) && w.Ready(p) && p.AtSprints?
    ensures Pulls(w, p, request)
  {
    hide Walk.BoardOk, PullState, SprintPageOf, Validated, Server.SprintsAt, Server.AsClient, Walk.SprintChunk, Walk.SprintStep;
    SprintPageAt(w, request, p.b, p.start);
    BoardAnswer(w, request, p.b, p.start);
  }

  /** The page of every place with something in it. */
  lemma PullAt(w: Walk, p: Place, request: Option<string>)
    requires w.Valid() && w.Landed(p) && w.Hears(p)
    ensures w.Ready(p) && Pulls(w, p, request)
  {
    ReadyAt(w, p);
    if p.AtIssues? {
      IssuesPull(w, p.k, request);
    } else if p.AtSprints? {
      SprintsPull(w, p, request);
    } else {
      IssueAnswer(w, p.i);
      if p.AtLinks? || p.AtLog? {
        ScanFinds(w, p.i);
      }
      hide Walk.Valid, Server.Valid, Pulls, Walk.Ready, Answers, Scans;
      if p.AtLinks? || p.InLinks? {
        LinksPull(w, p, request);
      } else {
        LogPull(w, p, request);
      }
    }
  }

  lemma ReadyAt(w: Walk, p: Place)
    requires w.Valid() && w.Landed(p)
    ensures w.Ready(p)
  {
    match p
    case AtIssues(k) =>
      forall i | i in w.s.issues
        ensures !IssueRefused(w.cfg, i)
      {
        var n :| 0 <= n < w.N() && w.s.issues[n] == i;
        IssueFacts(w, n);
      }
    case AtLinks(i) => IssueFacts(w, i);
    case InLinks(i, _) => IssueFacts(w, i);
    case AtLog(i) => IssueFacts(w, i);
    case InLog(i, _, _) => IssueFacts(w, i);
    case AtSprints(b, _) =>
      assert w.cfg.boards[b] in w.cfg.boards;
  }

  // ---------- tokens the connector refuses ----------

  lemma SearchRefused(w: Walk, k: nat, max: nat)
    requires w.Valid() && k < w.N() && max >= 1 && !w.Heard(w.End(k, w.N(), Min(max, w.s.width)))
    ensures TokenRefused(w.s.SearchAt(k, max), w.StartToken(k))
  {
    assert w.Shape();
    SearchRows(w, k, max);
    TokenFacts(w, w.End(k, w.N(), Min(max, w.s.width)));
    hide Walk.Valid, Walk.Shape, Server.SearchAt;
  }

  /** Where the search answers with a token the connector refuses, the pull fails. */
  lemma DeafFails(w: Walk, p: Place, request: Option<string>)
    requires w.Valid() && w.On(p) && !w.Hears(p)
    ensures PullState(w.s.AsClient(), w.cfg, request, w.CursorOf(p)) == Err(InvalidResponse)
  {
    var k, max := if p.AtIssues? then p.k else p.i, if p.AtIssues? then w.cfg.pageSize else 1;
    SearchAnswer(w, k, max);
    SearchRefused(w, k, max);
    hide Walk.Valid, Server.AsClient, Server.SearchAt, TokenRefused;
    if !p.AtIssues? {
      assert ScanIssue(w.s.AsClient(), w.StartToken(k)) == Err(InvalidResponse);
    }
  }
}
