/** One pull of the expanded Jira connector: from the text of a cursor and the answers of a client that is
    trusted with nothing, the page and the text of the cursor to continue from. */
module JiraPaging {
  import opened Wrappers
  import opened JiraKeys
  import opened JiraCursorCodec

  // ---------- what the client answers ----------

  /** An issue's own id: not a bounded string, a bounded string, or a decimal id the changelog accepts. */
  datatype IssueId = Unusable | Textual | Numeric(id: nat)

  /** One end of a link: no such property, a property without a bounded key, or a key. */
  datatype Endpoint = Absent | Unreadable | Present(key: string)

  /** `shaped`: the link is an object with an object type, a bounded type name and a decimal id. */
  datatype RawLink = RawLink(shaped: bool, id: nat, inward: Endpoint, outward: Endpoint)

  /** `links` is None when the field is not an array. */
  datatype Issue = Issue(key: string, id: IssueId, projectKey: string, dated: bool, links: Option<seq<RawLink>>)

  /** A change: malformed, of a field no mapping selects, or with the mapped observation. */
  datatype Item = Malformed | Unmapped | Mapped(observation: int)

  datatype History = History(id: Option<nat>, dated: bool, items: Option<seq<Item>>)

  datatype Sprint = Sprint(id: nat, wellFormed: bool)

  datatype Board = Board(id: nat, wellFormed: bool)

  datatype SearchPage = SearchPage(issues: seq<Issue>, isLast: Option<bool>, nextToken: Option<string>)

  datatype HistoryPage = HistoryPage(histories: seq<History>, startAt: Option<int>, total: Option<int>)

  datatype SprintPage = SprintPage(values: seq<Sprint>, startAt: Option<int>, total: Option<int>, isLast: Option<bool>)

  /** The read client; None is a rejected call. */
  datatype Client = Client(
    search: (Option<string>, nat) -> Option<SearchPage>,
    getIssue: string -> Option<Issue>,
    getChangeLogs: (string, nat) -> Option<HistoryPage>,
    getBoard: nat -> Option<Board>,
    getSprints: (nat, nat, nat) -> Option<SprintPage>)

  // ---------- configuration ----------

  datatype Project = Project(key: string, id: string)

  datatype BoardMapping = BoardMapping(boardId: nat, projectId: string)

  /** `boards` are the mappings whose project is in the read scope. */
  datatype Config = Config(projects: seq<Project>, scope: set<string>, issueLinks: bool, changelog: bool,
                           sprints: bool, boards: seq<BoardMapping>, pageSize: nat)
  {
    ghost predicate Valid() {
      && 1 <= pageSize <= 100
      && (issueLinks || changelog || sprints)
      && (sprints ==> boards != [])
      && Distinct(boards)
      && (forall b, c :: b in boards && c in boards && b.boardId == c.boardId ==> b == c)
      && (forall b :: b in boards ==> b.projectId in scope && exists p :: p in projects && p.id == b.projectId)
    }

    /** A mapped project is in the read scope. */
    predicate Selects() { exists p :: p in projects && p.id in scope }

    function EntityPageSize(): nat { Min(pageSize, 25) }

    /** The project whose key prefixes an issue key, if it is mapped and in scope. */
    function ProjectOfKey(key: string): Option<string> { FirstPrefix(projects, key) }

    function FirstPrefix(ps: seq<Project>, key: string): Option<string> {
      if ps == [] then None
      else if ps[0].key + "-" <= key && ps[0].id in scope then Some(ps[0].id)
      else FirstPrefix(ps[1..], key)
    }

    /** The project an issue states, if it is mapped and in scope. */
    function ProjectOfIssue(ps: seq<Project>, issue: Issue): Option<string> {
      if ps == [] then None
      else if ps[0].key == issue.projectKey && ps[0].id in scope then Some(ps[0].id)
      else ProjectOfIssue(ps[1..], issue)
    }
  }

  // ---------- records ----------

  datatype Record =
    | IssueRecord(project: string, key: string)
    | LinkRecord(project: string, linkId: nat, inward: string, outward: string)
    | ChangelogRecord(project: string, issueId: nat, historyId: nat, ordinal: nat, observation: int)
    | BoardRecord(project: string, boardId: nat)
    | SprintRecord(project: string, boardId: nat, sprintId: nat)
  {
    /** The part of a record that names it: two records of one page must not agree on it. */
    function Identity(): Record {
      match this
      case LinkRecord(p, id, _, _) => LinkRecord(p, id, "", "")
      case ChangelogRecord(p, i, h, o, _) => ChangelogRecord(p, i, h, o, 0)
      case _ => this
    }
  }

  /** `next` is the text of the cursor to continue from. */
  datatype Page = Page(records: seq<Record>, next: Option<string>)

  predicate IssueRefused(cfg: Config, issue: Issue) {
    |issue.key| > 128 || !IsIssueKey(issue.key) || issue.id == Unusable || !issue.dated
    || cfg.ProjectOfIssue(cfg.projects, issue).None?
  }

  function IssueRecordOf(cfg: Config, issue: Issue): Record {
    var project := cfg.ProjectOfIssue(cfg.projects, issue);
    IssueRecord(if project.Some? then project.value else "", issue.key)
  }

  function KeyOr(end: Endpoint, otherwise: string): string {
    if end.Present? then end.key else otherwise
  }

  /** A link as one endpoint sees it: no record unless both ends are in scope and this end sorts first. */
  function LinkOf(cfg: Config, link: RawLink, source: string): Result<Option<Record>, Error> {
    var inward := KeyOr(link.inward, source);
    var outward := KeyOr(link.outward, source);
    if !link.shaped || link.inward == Unreadable || link.outward == Unreadable
       || inward == outward || |inward| > 128 || |outward| > 128
       || !IsIssueKey(inward) || !IsIssueKey(outward)
       || (source != inward && source != outward)
    then Err(InvalidResponse)
    else if cfg.ProjectOfKey(outward).None? || cfg.ProjectOfKey(inward).None? then Ok(None)
    else if Smaller(outward, inward) != source then Ok(None)
    else Ok(Some(LinkRecord(cfg.ProjectOfKey(source).value, link.id, inward, outward)))
  }

  function LinkRecords(cfg: Config, links: seq<RawLink>, source: string): seq<Record> {
    if links == [] then []
    else
      var first := LinkOf(cfg, links[0], source);
      (if first.Ok? && first.value.Some? then [first.value.value] else []) + LinkRecords(cfg, links[1..], source)
  }

  function LinksOf(cfg: Config, links: seq<RawLink>, source: string): Result<seq<Record>, Error> {
    if exists l :: l in links && LinkOf(cfg, l, source).Err? then Err(InvalidResponse)
    else Ok(LinkRecords(cfg, links, source))
  }

  predicate ItemRefused(cfg: Config, key: string, item: Item) {
    item.Malformed? || (item.Mapped? && cfg.ProjectOfKey(key).None?)
  }

  function ItemRecords(project: string, issueId: nat, historyId: nat, items: seq<Item>, ordinal: nat): seq<Record> {
    if items == [] then []
    else (if items[0].Mapped?
          then [ChangelogRecord(project, issueId, historyId, ordinal, items[0].observation)] else [])
         + ItemRecords(project, issueId, historyId, items[1..], ordinal + 1)
  }

  /** The records of one history's items, the first of which has number `ordinal` in the history. */
  function ItemsOf(cfg: Config, key: string, issueId: nat, historyId: nat, items: seq<Item>, ordinal: nat)
    : Result<seq<Record>, Error>
  {
    if exists item :: item in items && ItemRefused(cfg, key, item) then Err(InvalidResponse)
    else Ok(ItemRecords(ProjectName(cfg, key), issueId, historyId, items, ordinal))
  }

  function ProjectName(cfg: Config, key: string): string {
    var project := cfg.ProjectOfKey(key);
    if project.Some? then project.value else ""
  }

  lemma {:induction false} ItemRecordsAppend(project: string, issueId: nat, historyId: nat,
                                             a: seq<Item>, b: seq<Item>, ordinal: nat)
    ensures ItemRecords(project, issueId, historyId, a + b, ordinal)
         == ItemRecords(project, issueId, historyId, a, ordinal)
            + ItemRecords(project, issueId, historyId, b, ordinal + |a|)
  {
    if a == [] {
      assert a + b == b;
    } else {
      assert (a + b)[0] == a[0] && (a + b)[1..] == a[1..] + b;
      ItemRecordsAppend(project, issueId, historyId, a[1..], b, ordinal + 1);
    }
  }

  /** The loop that collects a chunk of changelog items. */
  method CollectItems(cfg: Config, key: string, issueId: nat, historyId: nat, chunk: seq<Item>, itemOffset: nat)
    returns (r: Result<seq<Record>, Error>)
    ensures r == ItemsOf(cfg, key, issueId, historyId, chunk, itemOffset)
  {
    var records: seq<Record> := [];
    var project := ProjectName(cfg, key);
    for index := 0 to |chunk|
      invariant forall i :: 0 <= i < index ==> !ItemRefused(cfg, key, chunk[i])
      invariant records == ItemRecords(project, issueId, historyId, chunk[..index], itemOffset)
    {
      if ItemRefused(cfg, key, chunk[index]) {
        return Err(InvalidResponse);
      }
      ItemRecordsAppend(project, issueId, historyId, chunk[..index], [chunk[index]], itemOffset);
      assert chunk[..index] + [chunk[index]] == chunk[..index + 1];
      if chunk[index].Mapped? {
        records := records + [ChangelogRecord(project, issueId, historyId, itemOffset + index, chunk[index].observation)];
      }
    }
    assert chunk[..|chunk|] == chunk;
    return Ok(records);
  }

  function BoardOf(cfg: Config, mapping: BoardMapping, board: Board): Result<Record, Error> {
    if !board.wellFormed || board.id != mapping.boardId
       || mapping.projectId !in cfg.scope || !(exists p :: p in cfg.projects && p.id == mapping.projectId)
    then Err(InvalidResponse)
    else Ok(BoardRecord(mapping.projectId, board.id))
  }

  function SprintRecords(mapping: BoardMapping, sprints: seq<Sprint>): seq<Record> {
    if sprints == [] then []
    else [SprintRecord(mapping.projectId, mapping.boardId, sprints[0].id)] + SprintRecords(mapping, sprints[1..])
  }

  function IssueRecords(cfg: Config, issues: seq<Issue>): seq<Record> {
    if issues == [] then [] else [IssueRecordOf(cfg, issues[0])] + IssueRecords(cfg, issues[1..])
  }

  // ---------- one pull ----------

  predicate Repeats(records: seq<Record>) {
    exists i, j :: 0 <= i < j < |records| && records[i].Identity() == records[j].Identity()
  }

  function Written(next: Option<Cursor>): Result<Option<string>, Error> {
    if next.None? then Ok(None)
    else
      var text :- Encode(next.value);
      Ok(Some(text))
  }

  /** The page as the shared page contract lets it out: the cursor to continue from is written within the
      length limit, and a page that is not the last carries records and moves on. */
  function Validated(request: Option<string>, records: seq<Record>, next: Option<Cursor>): Result<Page, Error> {
    var text :- Written(next);
    if text.Some? && (text == request || records == []) then Err(InvalidResponse)
    else if |records| > 100 || Repeats(records) then Err(InvalidResponse)
    else Ok(Page(records, text))
  }

  function SprintPhase(cfg: Config): Option<Cursor> {
    if cfg.sprints then Some(Sprints(0, 0)) else None
  }

  function AfterLinks(cfg: Config): Option<Cursor> {
    if cfg.changelog then Some(Changelog(None, None, 0, 0)) else SprintPhase(cfg)
  }

  function FirstEntityPhase(cfg: Config): Option<Cursor> {
    if cfg.issueLinks then Some(Links(None, None, 0)) else AfterLinks(cfg)
  }

  function OrParent(records: seq<Record>, parent: Record): seq<Record> {
    if records == [] then [parent] else records
  }

  /** A token the client sends empty is a token it does not send. */
  function Sent(token: Option<string>): Option<string> {
    if token == Some("") then None else token
  }

  predicate TokenRefused(page: SearchPage, used: Option<string>) {
    var token := Sent(page.nextToken);
    || (page.isLast == Some(false) && token.None?)
    || (page.isLast == Some(true) && token.Some?)
    || (token.Some? && (!Bounded(token.value, LIMIT) || token == used))
  }

  /** The phases in the order the walk visits them, last first. */
  function Rank(state: Cursor): nat {
    match state
    case Issues(_) => 3
    case Links(_, _, _) => 2
    case Changelog(_, _, _, _) => 1
    case Sprints(_, _) => 0
  }

  function PullState(client: Client, cfg: Config, request: Option<string>, state: Cursor): Result<Page, Error>
    decreases Rank(state), 1
  {
    match state
    case Issues(token) => PullIssues(client, cfg, request, token)
    case Links(_, _, _) => if cfg.issueLinks then PullLinks(client, cfg, request, state) else Err(InvalidResponse)
    case Changelog(_, _, _, _) => if cfg.changelog then PullChangelog(client, cfg, request, state) else Err(InvalidResponse)
    case Sprints(b, s) => if cfg.sprints then PullSprints(client, cfg, request, b, s) else Err(InvalidResponse)
  }

  function PullIssues(client: Client, cfg: Config, request: Option<string>, token: Option<string>): Result<Page, Error>
    decreases 3, 0
  {
    var answer := client.search(token, cfg.pageSize);
    if answer.None? then Err(ClientFailure)
    else if |answer.value.issues| > cfg.pageSize || TokenRefused(answer.value, token)
            || (exists i :: i in answer.value.issues && IssueRefused(cfg, i))
    then Err(InvalidResponse)
    else
      var records := IssueRecords(cfg, answer.value.issues);
      var more := Sent(answer.value.nextToken);
      var next := if more.None? then FirstEntityPhase(cfg) else Some(Issues(more));
      if records == [] && more.Some? then Err(InvalidResponse)
      else if records == [] && next.Some? then PullState(client, cfg, request, next.value)
      else Validated(request, records, next)
  }

  /** The one-issue search that drives the link and changelog phases: the issue, if any, and the next token. */
  function ScanIssue(client: Client, token: Option<string>): Result<(Option<Issue>, Option<string>), Error> {
    var answer := client.search(token, 1);
    if answer.None? then Err(ClientFailure)
    else if |answer.value.issues| > 1 || TokenRefused(answer.value, token) then Err(InvalidResponse)
    else
      var issues, more := answer.value.issues, Sent(answer.value.nextToken);
      if issues != [] && Bounded(issues[0].key, 128) then Ok((Some(issues[0]), more))
      else if more.Some? then Err(InvalidResponse)
      else Ok((None, None))
  }

  function PullLinks(client: Client, cfg: Config, request: Option<string>, state: Cursor): Result<Page, Error>
    requires state.Links?
    decreases Rank(state), 0
  {
    if state.issueKey.Some? then
      var answer := client.getIssue(state.issueKey.value);
      if answer.None? then Err(ClientFailure)
      else LinkPage(cfg, request, state.issueKey.value, answer.value, state.offset, state.token)
    else
      var scan :- ScanIssue(client, state.token);
      if scan.0.Some? then LinkPage(cfg, request, scan.0.value.key, scan.0.value, 0, scan.1)
      else
        var next := AfterLinks(cfg);
        if next.Some? then PullState(client, cfg, request, next.value) else Validated(request, [], None)
  }

  function AfterLinkChunk(cfg: Config, key: string, end: nat, total: nat, token: Option<string>): Option<Cursor> {
    if end < total then Some(Links(token, Some(key), end))
    else if token.Some? then Some(Links(token, None, 0))
    else AfterLinks(cfg)
  }

  /** A page of one issue's links, `token` leading to the issue after it. */
  function LinkPage(cfg: Config, request: Option<string>, key: string, issue: Issue, offset: nat, token: Option<string>)
    : Result<Page, Error>
  {
    var parent := IssueRecordOf(cfg, issue);
    if IssueRefused(cfg, issue) || issue.key != key || issue.links.None? || |issue.links.value| > 1000 || offset > |issue.links.value|
    then Err(InvalidResponse)
    else
      var links := issue.links.value;
      var end := Min(offset + cfg.EntityPageSize(), |links|);
      var records :- LinksOf(cfg, links[offset..end], key);
      Validated(request, OrParent(records, parent), AfterLinkChunk(cfg, key, end, |links|, token))
  }

  function PullChangelog(client: Client, cfg: Config, request: Option<string>, state: Cursor): Result<Page, Error>
    requires state.Changelog?
    decreases Rank(state), 0
  {
    if state.issueKey.Some? then
      var answer := client.getIssue(state.issueKey.value);
      if answer.None? then Err(ClientFailure)
      else ChangelogPage(client, cfg, request, state, state.issueKey.value, answer.value,
                         state.historyOffset, state.itemOffset, state.token)
    else
      var scan :- ScanIssue(client, state.token);
      if scan.0.Some?
      then ChangelogPage(client, cfg, request, state, scan.0.value.key, scan.0.value, 0, 0, scan.1)
      else
        var next := SprintPhase(cfg);
        if next.Some? then PullState(client, cfg, request, next.value) else Validated(request, [], None)
  }

  function NextIssueOrSprints(cfg: Config, token: Option<string>): Option<Cursor> {
    if token.Some? then Some(Changelog(token, None, 0, 0)) else SprintPhase(cfg)
  }

  function AfterItemChunk(cfg: Config, key: string, h: nat, end: nat, items: nat, total: Option<int>, token: Option<string>)
    : Option<Cursor>
  {
    if end < items then Some(Changelog(token, Some(key), h, end))
    else if total.None? || h + 1 < total.value then Some(Changelog(token, Some(key), h + 1, 0))
    else NextIssueOrSprints(cfg, token)
  }

  /** A page of one history. Note that an issue without a history continues from the token of the
      request's own cursor, `state.token`, and not from `token`, which leads to the issue after it. */
  function ChangelogPage(client: Client, cfg: Config, request: Option<string>, state: Cursor, key: string, issue: Issue,
                         h: nat, offset: nat, token: Option<string>): Result<Page, Error>
    requires state.Changelog?
  {
    var parent := IssueRecordOf(cfg, issue);
    var answer := client.getChangeLogs(key, h);
    if IssueRefused(cfg, issue) || issue.key != key || !issue.id.Numeric? then Err(InvalidResponse)
    else if answer.None? then Err(ClientFailure)
    else
      var page := answer.value;
      if |page.histories| > 1
         || (page.startAt.Some? && page.startAt.value != h)
         || (page.total.Some? && page.total.value < h + |page.histories|)
      then Err(InvalidResponse)
      else if page.histories == [] then
        if offset != 0 || (page.total.Some? && page.total.value > h) then Err(InvalidResponse)
        else Validated(request, [parent], NextIssueOrSprints(cfg, state.token))
      else
        var history := page.histories[0];
        if history.items.None? || |history.items.value| > 1000 || offset > |history.items.value|
           || history.id.None? || !history.dated
        then Err(InvalidResponse)
        else
          var items := history.items.value;
          var end := Min(offset + cfg.EntityPageSize(), |items|);
          var records :- ItemsOf(cfg, key, issue.id.id, history.id.value, items[offset..end], offset);
          Validated(request, OrParent(records, parent), AfterItemChunk(cfg, key, h, end, |items|, page.total, token))
  }

  function AfterSprintPage(cfg: Config, boardIndex: nat, nextStart: nat, terminal: bool): Option<Cursor> {
    if !terminal then Some(Sprints(boardIndex, nextStart))
    else if boardIndex + 1 < |cfg.boards| then Some(Sprints(boardIndex + 1, 0))
    else None
  }

  /** A page of one board's sprints, in front of them the board itself if they start there. */
  function SprintPageOf(cfg: Config, request: Option<string>, boardIndex: nat, startAt: nat, board: Board, page: SprintPage)
    : Result<Page, Error>
    requires boardIndex < |cfg.boards|
  {
    var mapping := cfg.boards[boardIndex];
    var projected :- BoardOf(cfg, mapping, board);
    var nextStart := startAt + |page.values|;
    if |page.values| > cfg.EntityPageSize() || page.total.None? || page.total.value < startAt
       || (page.startAt.Some? && page.startAt.value != startAt)
       || page.total.value < nextStart
       || (page.isLast == Some(false) && (page.values == [] || nextStart >= page.total.value))
       || (page.isLast == Some(true) && nextStart < page.total.value)
       || (exists s :: s in page.values && !s.wellFormed)
    then Err(InvalidResponse)
    else
      var sprints := SprintRecords(mapping, page.values);
      var records := if startAt == 0 || sprints == [] then [projected] + sprints else sprints;
      var terminal := page.isLast == Some(true) || nextStart >= page.total.value;
      Validated(request, records, AfterSprintPage(cfg, boardIndex, nextStart, terminal))
  }

  function PullSprints(client: Client, cfg: Config, request: Option<string>, boardIndex: nat, startAt: nat): Result<Page, Error>
    decreases 0, 0
  {
    if boardIndex >= |cfg.boards| then Err(InvalidResponse)
    else
      var board := client.getBoard(cfg.boards[boardIndex].boardId);
      if board.None? then Err(ClientFailure)
      else if BoardOf(cfg, cfg.boards[boardIndex], board.value).Err? then Err(InvalidResponse)
      else
        var page := client.getSprints(cfg.boards[boardIndex].boardId, startAt, cfg.EntityPageSize());
        if page.None? then Err(ClientFailure)
        else SprintPageOf(cfg, request, boardIndex, startAt, board.value, page.value)
  }

  predicate White(c: char) {
    || 9 <= c as int <= 13 || c == ' ' || c as int in {0xA0, 0x1680, 0x2028, 0x2029, 0x202F, 0x205F, 0x3000, 0xFEFF}
    || 0x2000 <= c as int <= 0x200A
  }

  /** What the request schema asks of the text of a cursor. */
  predicate Requestable(text: string) {
    Bounded(text, LIMIT) && exists c :: c in text && !White(c)
  }

  /** `pullChanges` with entities enabled; None is the null cursor. */
  function Pull(client: Client, cfg: Config, request: Option<string>): Result<Page, Error> {
    if request.Some? && !Requestable(request.value) then Err(InvalidInput)
    else if !cfg.Selects() || (cfg.sprints && cfg.boards == []) then Err(PermissionDenied)
    else
      var cursor :- Decode(request);
      PullState(client, cfg, request, cursor)
  }

  /** A run: pages pulled one after the other from the null cursor, the last one ending the walk. */
  ghost predicate Run(client: Client, cfg: Config, start: Option<string>, pages: seq<Page>)
    decreases |pages|
  {
    && pages != []
    && Pull(client, cfg, start) == Ok(pages[0])
    && if |pages| == 1 then pages[0].next.None?
       else pages[0].next.Some? && Run(client, cfg, pages[0].next, pages[1..])
  }

  function RecordsOf(pages: seq<Page>): seq<Record> {
    if pages == [] then [] else pages[0].records + RecordsOf(pages[1..])
  }

  /** There is at most one run from a cursor. */
  lemma {:induction false} RunIsUnique(client: Client, cfg: Config, start: Option<string>, p: seq<Page>, q: seq<Page>)
    requires Run(client, cfg, start, p) && Run(client, cfg, start, q)
    ensures p == q
    decreases |p|
  {
    if |p| > 1 {
      RunIsUnique(client, cfg, p[0].next, p[1..], q[1..]);
      assert p == [p[0]] + p[1..] && q == [q[0]] + q[1..];
    }
  }
}
