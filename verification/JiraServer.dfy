/** A finite Jira that does not change during a walk, and where in it each cursor of the walk stands. */
module JiraServer {
  import opened Wrappers
  import opened JiraCursorCodec
  import opened JiraPaging

  /** Histories are listed beside the issues they belong to. Token k leads to the issues from number k on.
      The server is free in how many rows it returns below the maximum (`width`, `sprintWidth`), in whether
      the page that reaches the end still promises an empty one (`trailing`), and in which of the
      redundant fields of an answer it fills in. */
  datatype Server = Server(
    issues: seq<Issue>, histories: seq<seq<History>>, tokens: seq<string>, sprints: map<nat, seq<Sprint>>,
    width: nat, sprintWidth: nat, trailing: bool, statesLast: bool, statesStart: bool, statesTotal: bool)
  {
    /** The sizes fit together. */
    predicate Shape(cfg: Config) {
      && 1 <= cfg.pageSize <= 100
      && (cfg.issueLinks || cfg.changelog || cfg.sprints)
      && (cfg.sprints ==> cfg.boards != [])
      && width >= 1 && sprintWidth >= 1
      && |histories| == |issues|
      && |tokens| == |issues| + 1
    }

    /** What the connector's schemas and Jira's own documented answers guarantee of such a server. */
    ghost predicate Valid(cfg: Config) {
      && Shape(cfg)
      && cfg.Valid()
      && Distinct(tokens) && "" !in tokens
      && (forall i, j :: 0 <= i < j < |issues| ==> issues[i].key != issues[j].key)
      && (forall i :: 0 <= i < |issues| ==> IssueValid(cfg, issues[i]) && HistoriesValid(cfg, histories[i]))
      && (forall b :: b in cfg.boards ==> b.boardId in sprints && SprintsValid(sprints[b.boardId]))
    }

    ghost predicate IssueValid(cfg: Config, issue: Issue) {
      && !IssueRefused(cfg, issue)
      && cfg.ProjectOfKey(issue.key) == cfg.ProjectOfIssue(cfg.projects, issue)
      && issue.id.Numeric?
      && issue.links.Some? && |issue.links.value| <= 1000
      && (forall l :: l in issue.links.value ==> LinkOf(cfg, l, issue.key).Ok?)
      && (forall i, j :: 0 <= i < j < |issue.links.value| ==> issue.links.value[i].id != issue.links.value[j].id)
    }

    ghost predicate HistoriesValid(cfg: Config, hs: seq<History>) {
      && (forall h :: h in hs ==> h.id.Some? && h.dated && h.items.Some? && |h.items.value| <= 1000
                                  && forall item :: item in h.items.value ==> !item.Malformed?)
      && forall i, j :: 0 <= i < j < |hs| ==> hs[i].id != hs[j].id
    }

    ghost predicate SprintsValid(sprints: seq<Sprint>) {
      && (forall s :: s in sprints ==> s.wellFormed)
      && forall i, j :: 0 <= i < j < |sprints| ==> sprints[i].id != sprints[j].id
    }

    /** Whether the page ending before issue `end` promises another one. */
    predicate More(end: nat) { end < |issues| || trailing }

    function SearchAt(pos: nat, max: nat): SearchPage
      requires pos <= |issues| < |tokens|
    {
      var end := pos + Min(Min(max, width), |issues| - pos);
      var more := pos < |issues| && More(end);
      SearchPage(issues[pos..end], if statesLast then Some(!more) else None,
                 if more then Some(tokens[end]) else None)
    }

    function LogAt(i: nat, start: nat): HistoryPage
      requires i < |histories|
    {
      HistoryPage(if start < |histories[i]| then [histories[i][start]] else [],
                  if statesStart then Some(start) else None,
                  if statesTotal then Some(|histories[i]|) else None)
    }

    function SprintsAt(boardId: nat, start: nat, max: nat): SprintPage
      requires boardId in sprints && start <= |sprints[boardId]|
    {
      var end := start + Min(Min(max, sprintWidth), |sprints[boardId]| - start);
      SprintPage(sprints[boardId][start..end], if statesStart then Some(start) else None,
                 Some(|sprints[boardId]|), if statesLast then Some(end == |sprints[boardId]|) else None)
    }

    /** The server as the connector sees it. */
    function AsClient(): Client {
      Client(
        (token: Option<string>, max: nat) =>
          var pos := if token.None? then 0 else TokenIndex(tokens, token.value);
          if pos <= |issues| < |tokens| then Some(SearchAt(pos, max)) else None,
        (key: string) =>
          var i := KeyIndex(issues, key);
          if i < |issues| then Some(issues[i]) else None,
        (key: string, start: nat) =>
          var i := KeyIndex(issues, key);
          if i < |histories| then Some(LogAt(i, start)) else None,
        (boardId: nat) => Some(Board(boardId, true)),
        (boardId: nat, start: nat, max: nat) =>
          if boardId in sprints && start <= |sprints[boardId]| then Some(SprintsAt(boardId, start, max)) else None)
    }
  }

  function TokenIndex(tokens: seq<string>, token: string): nat {
    if tokens == [] || tokens[0] == token then 0 else 1 + TokenIndex(tokens[1..], token)
  }

  function KeyIndex(issues: seq<Issue>, key: string): nat {
    if issues == [] || issues[0].key == key then 0 else 1 + KeyIndex(issues[1..], key)
  }

  lemma {:induction false} TokenIndexFinds(tokens: seq<string>, k: nat)
    requires Distinct(tokens) && k < |tokens|
    ensures TokenIndex(tokens, tokens[k]) == k
  {
    if k > 0 {
      assert tokens[1..][k - 1] == tokens[k];
      TokenIndexFinds(tokens[1..], k - 1);
    }
  }

  lemma {:induction false} KeyIndexFinds(issues: seq<Issue>, i: nat)
    requires forall a, b :: 0 <= a < b < |issues| ==> issues[a].key != issues[b].key
    requires i < |issues|
    ensures KeyIndex(issues, issues[i].key) == i
  {
    if i > 0 {
      assert issues[1..][i - 1] == issues[i];
      KeyIndexFinds(issues[1..], i - 1);
    }
  }

  // ---------- places ----------

  /** Where a cursor stands: before issue k of a phase, inside an issue, or inside a board. */
  datatype Place =
    | AtIssues(k: nat)
    | AtLinks(i: nat)
    | InLinks(i: nat, off: nat)
    | AtLog(i: nat)
    | InLog(i: nat, h: nat, off: nat)
    | AtSprints(b: nat, start: nat)

  /** A walk of one configuration over one server. */
  datatype Walk = Walk(s: Server, cfg: Config) {
    ghost predicate Valid() { s.Valid(cfg) }

    predicate Shape() { s.Shape(cfg) }

    function N(): nat { |s.issues| }

    /** The places a walk can be asked to continue from. */
    predicate On(p: Place)
      requires Shape()
    {
      match p
      case AtIssues(k) => k <= N() && (k == 0 || s.More(k))
      case AtLinks(i) => cfg.issueLinks && i <= N() && (i == 0 || s.More(i))
      case InLinks(i, off) => cfg.issueLinks && i < N() && 0 < off < |LinksAt(i)|
      case AtLog(i) => cfg.changelog && i <= N() && (i == 0 || s.More(i))
      case InLog(i, h, off) =>
        && cfg.changelog && i < N() && h <= |s.histories[i]| && (h > 0 || off > 0)
        && (if h == |s.histories[i]| then off == 0 && !s.statesTotal
            else off == 0 || off < |ItemsAt(i, h)|)
      case AtSprints(b, start) =>
        cfg.sprints && b < |cfg.boards| && (start == 0 || start < |SprintsAtBoard(b)|)
    }

    function LinksAt(i: nat): seq<RawLink>
      requires i < N()
    {
      if s.issues[i].links.Some? then s.issues[i].links.value else []
    }

    function ItemsAt(i: nat, h: nat): seq<Item>
      requires i < |s.histories| && h < |s.histories[i]|
    {
      if s.histories[i][h].items.Some? then s.histories[i][h].items.value else []
    }

    function SprintsAtBoard(b: nat): seq<Sprint>
      requires b < |cfg.boards|
    {
      var id := cfg.boards[b].boardId;
      if id in s.sprints then s.sprints[id] else []
    }

    function TokenTo(i: nat): Option<string> {
      if s.More(i) && i < |s.tokens| then Some(s.tokens[i]) else None
    }

    /** The token that leads to issue i, where one is given, is one the connector takes. */
    predicate Heard(i: nat) { TokenTo(i).Some? ==> Bounded(TokenTo(i).value, LIMIT) }

    /** The search that a place's page is made from does not answer with a token the connector refuses. */
    predicate Hears(p: Place) {
      match p
      case AtIssues(k) => k < N() ==> Heard(End(k, N(), Min(cfg.pageSize, s.width)))
      case AtLinks(i) => i < N() ==> Heard(i + 1)
      case AtLog(i) => i < N() ==> Heard(i + 1)
      case _ => true
    }

    function StartToken(i: nat): Option<string> {
      if 0 < i < |s.tokens| then Some(s.tokens[i]) else None
    }

    function KeyAt(i: nat): string { if i < N() then s.issues[i].key else "" }

    function CursorOf(p: Place): Cursor {
      match p
      case AtIssues(k) => Issues(StartToken(k))
      case AtLinks(i) => Links(StartToken(i), None, 0)
      case InLinks(i, off) => Links(TokenTo(i + 1), Some(KeyAt(i)), off)
      case AtLog(i) => Changelog(StartToken(i), None, 0, 0)
      case InLog(i, h, off) => Changelog(TokenTo(i + 1), Some(KeyAt(i)), h, off)
      case AtSprints(b, start) => Sprints(b, start)
    }

    function CursorOfOpt(p: Option<Place>): Option<Cursor> {
      if p.Some? then Some(CursorOf(p.value)) else None
    }

    function TextOf(p: Place): string { Text(CursorOf(p)) }

    function TextOfOpt(p: Option<Place>): Option<string> {
      if p.Some? then Some(TextOf(p.value)) else None
    }

    /** The measure that every pull decreases: phase, issues left, histories left, items left. */
    function Measure(p: Place): (nat, nat, nat, nat)
      requires Shape() && On(p)
    {
      match p
      case AtIssues(k) => (3, N() - k, 0, 0)
      case AtLinks(i) => (2, 2 * (N() - i) + 2, 0, 0)
      case InLinks(i, off) => (2, 2 * (N() - i) + 1, 0, |LinksAt(i)| - off)
      case AtLog(i) => (1, 2 * (N() - i) + 2, 0, 0)
      case InLog(i, h, off) =>
        (1, 2 * (N() - i) + 1, |s.histories[i]| - h, if h < |s.histories[i]| then |ItemsAt(i, h)| - off else 0)
      case AtSprints(b, start) => (0, |cfg.boards| - b, 0, |SprintsAtBoard(b)| - start)
    }

    // ---------- how the walk moves ----------

    function SprintPlace(): Option<Place> { if cfg.sprints then Some(AtSprints(0, 0)) else None }

    function LogPlace(): Option<Place> { if cfg.changelog then Some(AtLog(0)) else SprintPlace() }

    function LinkPlace(): Option<Place> { if cfg.issueLinks then Some(AtLinks(0)) else LogPlace() }

    function LandLog(i: nat): Option<Place> { if i < N() then Some(AtLog(i)) else SprintPlace() }

    function LandLinks(i: nat): Option<Place> {
      if i < N() then Some(AtLinks(i)) else if cfg.changelog then LandLog(0) else SprintPlace()
    }

    /** A place with nothing left in its phase stands for the first place that has something. */
    function Land(p: Place): Option<Place> {
      match p
      case AtIssues(k) =>
        if k < N() then Some(p) else if cfg.issueLinks then LandLinks(0)
        else if cfg.changelog then LandLog(0) else SprintPlace()
      case AtLinks(i) => LandLinks(i)
      case AtLog(i) => LandLog(i)
      case _ => Some(p)
    }

    /** The end of the page of issues, links, items or sprints that starts at a place. */
    function End(off: nat, total: nat, limit: nat): nat { off + Min(limit, if off <= total then total - off else 0) }

    function AfterLinksOf(i: nat): Option<Place> { if s.More(i + 1) then Some(AtLinks(i + 1)) else LogPlace() }

    function AfterLogOf(i: nat): Option<Place> { if s.More(i + 1) then Some(AtLog(i + 1)) else SprintPlace() }

    function LinkStep(i: nat, off: nat): Option<Place>
      requires i < N()
    {
      var end := End(off, |LinksAt(i)|, cfg.EntityPageSize());
      if end < |LinksAt(i)| then Some(InLinks(i, end)) else AfterLinksOf(i)
    }

    function LogStep(i: nat, h: nat, off: nat): Option<Place>
      requires i < N() == |s.histories| && h <= |s.histories[i]|
    {
      // the first issue's own cursor carries no token, so without a history the rest of the listing is left out
      if h == |s.histories[i]| then (if h == 0 then SprintPlace() else AfterLogOf(i))
      else
        var end := End(off, |ItemsAt(i, h)|, cfg.EntityPageSize());
        if end < |ItemsAt(i, h)| then Some(InLog(i, h, end))
        else if !s.statesTotal || h + 1 < |s.histories[i]| then Some(InLog(i, h + 1, 0))
        else AfterLogOf(i)
    }

    function SprintStep(b: nat, start: nat): Option<Place>
      requires b < |cfg.boards|
    {
      var end := End(start, |SprintsAtBoard(b)|, Min(cfg.EntityPageSize(), s.sprintWidth));
      if end < |SprintsAtBoard(b)| then Some(AtSprints(b, end))
      else if b + 1 < |cfg.boards| then Some(AtSprints(b + 1, 0))
      else None
    }

    /** A later issue without a history: the walk cannot leave it. */
    predicate Stuck(p: Place) {
      p.AtLog? && 0 < p.i < |s.histories| && s.histories[p.i] == []
    }

    predicate Landed(p: Place)
      requires Shape()
    {
      && On(p) && !Stuck(p)
      && (p.AtIssues? ==> p.k < N())
      && (p.AtLinks? ==> p.i < N())
      && (p.AtLog? ==> p.i < N())
    }

    /** The place the page that starts at a landed place leads to. */
    function Advance(p: Place): Option<Place>
      requires Shape() && Landed(p)
    {
      match p
      case AtIssues(k) =>
        var end := End(k, N(), Min(cfg.pageSize, s.width));
        if s.More(end) then Some(AtIssues(end)) else LinkPlace()
      case AtLinks(i) => LinkStep(i, 0)
      case InLinks(i, off) => LinkStep(i, off)
      case AtLog(i) => LogStep(i, 0, 0)
      case InLog(i, h, off) => LogStep(i, h, off)
      case AtSprints(b, start) => SprintStep(b, start)
    }

    function Parent(i: nat): Record
      requires i < N()
    {
      IssueRecordOf(cfg, s.issues[i])
    }

    function LinkChunk(i: nat, off: nat): seq<Record>
      requires i < N() && off <= |LinksAt(i)|
    {
      LinkRecords(cfg, LinksAt(i)[off..End(off, |LinksAt(i)|, cfg.EntityPageSize())], s.issues[i].key)
    }

    function ItemRecordsAt(i: nat, h: nat, items: seq<Item>, off: nat): seq<Record>
      requires i < N() == |s.histories| && h < |s.histories[i]|
    {
      var issue, history := s.issues[i], s.histories[i][h];
      ItemRecords(ProjectName(cfg, issue.key), if issue.id.Numeric? then issue.id.id else 0,
                  if history.id.Some? then history.id.value else 0, items, off)
    }

    function LogChunk(i: nat, h: nat, off: nat): seq<Record>
      requires i < N() == |s.histories| && h < |s.histories[i]| && off <= |ItemsAt(i, h)|
    {
      ItemRecordsAt(i, h, ItemsAt(i, h)[off..End(off, |ItemsAt(i, h)|, cfg.EntityPageSize())], off)
    }

    function BoardRecordAt(b: nat): Record
      requires b < |cfg.boards|
    {
      BoardRecord(cfg.boards[b].projectId, cfg.boards[b].boardId)
    }

    function SprintChunk(b: nat, start: nat): seq<Record>
      requires b < |cfg.boards| && start <= |SprintsAtBoard(b)|
    {
      (if start == 0 then [BoardRecordAt(b)] else [])
      + SprintRecords(cfg.boards[b], SprintsAtBoard(b)[start..End(start, |SprintsAtBoard(b)|, Min(cfg.EntityPageSize(), s.sprintWidth))])
    }

    function IssueChunk(k: nat): seq<Record>
      requires k <= N()
    {
      IssueRecords(cfg, s.issues[k..End(k, N(), Min(cfg.pageSize, s.width))])
    }

    /** The records of the page that starts at a landed place. */
    function Emit(p: Place): seq<Record>
      requires Shape() && Landed(p)
    {
      match p
      case AtIssues(k) => IssueChunk(k)
      case AtLinks(i) => OrParent(LinkChunk(i, 0), Parent(i))
      case InLinks(i, off) => OrParent(LinkChunk(i, off), Parent(i))
      case AtLog(i) => if s.histories[i] == [] then [Parent(i)] else OrParent(LogChunk(i, 0, 0), Parent(i))
      case InLog(i, h, off) => if h == |s.histories[i]| then [Parent(i)] else OrParent(LogChunk(i, h, off), Parent(i))
      case AtSprints(b, start) => SprintChunk(b, start)
    }

    // ---------- what the rows are good for ----------

    ghost predicate IssueOk(i: nat)
      requires i < N() == |s.histories|
    {
      s.IssueValid(cfg, s.issues[i]) && s.HistoriesValid(cfg, s.histories[i])
    }

    ghost predicate IssuesOk() {
      forall i :: i in s.issues ==> !IssueRefused(cfg, i)
    }

    ghost predicate BoardOk(b: nat)
      requires b < |cfg.boards|
    {
      var m := cfg.boards[b];
      && m.boardId in s.sprints && s.SprintsValid(s.sprints[m.boardId])
      && BoardOf(cfg, m, Board(m.boardId, true)) == Ok(BoardRecordAt(b))
    }

    /** What the page at a place needs of the rows it is made of. */
    ghost predicate Ready(p: Place)
      requires Shape() && Landed(p)
    {
      match p
      case AtIssues(_) => IssuesOk()
      case AtLinks(i) => IssueOk(i)
      case InLinks(i, _) => IssueOk(i)
      case AtLog(i) => IssueOk(i)
      case InLog(i, _, _) => IssueOk(i)
      case AtSprints(b, _) => BoardOk(b)
    }

    // ---------- what a walk should bring ----------

    function LinkRest(i: nat, off: nat): seq<Record>
      requires i < N() && off <= |LinksAt(i)|
    {
      LinkRecords(cfg, LinksAt(i)[off..], s.issues[i].key)
    }

    function LinksFrom(i: nat): seq<Record>
      decreases N() - i
    {
      if i >= N() then [] else LinkRest(i, 0) + LinksFrom(i + 1)
    }

    /** The records of one history, counting its items from `off` on. */
    function HistoryRest(i: nat, h: nat, off: nat): seq<Record>
      requires i < N() == |s.histories| && h < |s.histories[i]| && off <= |ItemsAt(i, h)|
    {
      ItemRecordsAt(i, h, ItemsAt(i, h)[off..], off)
    }

    function HistoriesFrom(i: nat, h: nat): seq<Record>
      requires i < N() == |s.histories|
      decreases |s.histories[i]| - h
    {
      if h >= |s.histories[i]| then [] else HistoryRest(i, h, 0) + HistoriesFrom(i, h + 1)
    }

    function LogFrom(i: nat): seq<Record>
      requires |s.histories| == N()
      decreases N() - i
    {
      if i >= N() then [] else HistoriesFrom(i, 0) + LogFrom(i + 1)
    }

    function SprintRest(b: nat, start: nat): seq<Record>
      requires b < |cfg.boards| && start <= |SprintsAtBoard(b)|
    {
      (if start == 0 then [BoardRecordAt(b)] else []) + SprintRecords(cfg.boards[b], SprintsAtBoard(b)[start..])
    }

    function SprintsFrom(b: nat): seq<Record>
      decreases |cfg.boards| - b
    {
      if b >= |cfg.boards| then [] else SprintRest(b, 0) + SprintsFrom(b + 1)
    }

    /** Each link at its smaller endpoint, each mapped changelog item, each selected board with its sprints. */
    function Expected(): seq<Record>
      requires |s.histories| == N()
    {
      (if cfg.issueLinks then LinksFrom(0) else []) + ((if cfg.changelog then LogFrom(0) else []) + RestAfterLog())
    }

    /** The changelog part as the walk brings it: nothing at all when the first issue has no history. */
    function LogWalked(): seq<Record>
      requires |s.histories| == N()
    {
      if N() > 0 && s.histories[0] == [] then [] else LogFrom(0)
    }

    function RestAfterLog(): seq<Record>
      requires |s.histories| == N()
    {
      if cfg.sprints then SprintsFrom(0) else []
    }

    function RestAfterLinks(): seq<Record>
      requires |s.histories| == N()
    {
      (if cfg.changelog then LogWalked() else []) + RestAfterLog()
    }

    /** The records other than issues that the walk still brings from a place on. */
    function Rest(p: Place): seq<Record>
      requires Shape() && On(p)
    {
      match p
      case AtIssues(_) => (if cfg.issueLinks then LinksFrom(0) else []) + RestAfterLinks()
      case AtLinks(i) => LinksFrom(i) + RestAfterLinks()
      case InLinks(i, off) => LinkRest(i, off) + LinksFrom(i + 1) + RestAfterLinks()
      case AtLog(i) => (if i == 0 then LogWalked() else LogFrom(i)) + RestAfterLog()
      case InLog(i, h, off) => LogRest(i, h, off) + LogFrom(i + 1) + RestAfterLog()
      case AtSprints(b, start) => SprintRest(b, start) + SprintsFrom(b + 1)
    }

    function LogRest(i: nat, h: nat, off: nat): seq<Record>
      requires i < N() == |s.histories| && (h < |s.histories[i]| ==> off <= |ItemsAt(i, h)|)
    {
      if h < |s.histories[i]| then HistoryRest(i, h, off) + HistoriesFrom(i, h + 1) else []
    }

    function RestOpt(p: Option<Place>): seq<Record>
      requires Shape() && (p.Some? ==> On(p.value))
    {
      if p.Some? then Rest(p.value) else []
    }
  }
}
