/** What an ingestion that follows the cursors to the end obtains. */
module JiraTheorems {
  import opened Wrappers
  import opened JiraKeys
  import opened JiraCursorCodec
  import opened JiraPaging
  import opened JiraServer
  import opened JiraWalk
  import opened JiraVisited
  import opened JiraEnumeration
  import opened JiraExactlyOnce

  lemma IssuesSelect(w: Walk)
    requires w.Valid() && w.N() > 0
    ensures w.cfg.Selects()
  {
    IssueFacts(w, 0);
    StatedProject(w.cfg, w.cfg.projects, w.s.issues[0]);
  }

  lemma {:induction false} StatedProject(cfg: Config, ps: seq<Project>, issue: Issue)
    requires cfg.ProjectOfIssue(ps, issue).Some?
    ensures exists p :: p in ps && p.id in cfg.scope
  {
    if ps[0].key == issue.projectKey && ps[0].id in cfg.scope {
      assert ps[0] in ps;
    } else {
      StatedProject(cfg, ps[1..], issue);
    }
  }

  /** Every pull whose place is not a later issue without a history ends the walk, or moves to a cursor with a
      lexicographically smaller measure on a page with records; unless no project is selected, the search answers
      with a token that is refused, or the next cursor is too long to be written. */
  lemma PullMakesProgress(w: Walk, p: Place, request: Option<string>) returns (page: Page, next: Option<Place>)
    requires w.Valid() && Passable(w, p) && Requested(w, p, request)
    ensures Pull(w.s.AsClient(), w.cfg, request)
         == if !w.cfg.Selects() then Err(PermissionDenied)
            else if (w.Land(p).Some? ==> w.Hears(w.Land(p).value)) && (next.Some? ==> TextSize(w.CursorOf(next.value)) <= LIMIT)
            then Ok(page) else Err(InvalidResponse)
    ensures page.next == w.TextOfOpt(next)
    ensures next.Some? ==> w.On(next.value) && Less(w.Measure(next.value), w.Measure(p))
    ensures next.Some? ==> page.records != []
  {
    PullFrom(w, p, request);
    NextFacts(w, p);
    next := Next(w, p);
    page := Page(Emitted(w, p), w.TextOfOpt(next));
    if w.Land(p).Some? {
      PlaceStands(w, w.Land(p).value);
    }
    hide Walk.Valid, Pull, Requested, Text, TextSize, Walk.Rest;
  }

  /** The issue a pull cannot get past: it is asked for by a token, and the page would repeat that cursor. */
  lemma StuckFails(w: Walk, p: Place, request: Option<string>)
    requires w.Valid() && w.On(p) && w.Stuck(p) && Requested(w, p, request)
    ensures Pull(w.s.AsClient(), w.cfg, request) == Err(InvalidResponse)
  {
    IssuesSelect(w);
    RequestRead(w, p, request);
    StuckState(w, p, request);
    assert w.Shape();
    hide Walk.Valid, Requestable, Decode, PullState, Config.Selects, Walk.CursorOf, Text;
  }

  lemma StuckState(w: Walk, p: Place, request: Option<string>)
    requires w.Valid() && w.On(p) && w.Stuck(p) && request == Some(Text(w.CursorOf(p)))
    ensures PullState(w.s.AsClient(), w.cfg, request, w.CursorOf(p)) == Err(InvalidResponse)
  {
    var i := p.i;
    if w.Hears(p) {
      IssueFacts(w, i);
      ScanFinds(w, i);
      IssueAnswer(w, i);
      hide Walk.Valid, Server.IssueValid, Server.HistoriesValid, ScanIssue, Server.AsClient, IssueRefused, Config.ProjectOfKey;
      StuckPage(w, p);
    } else {
      DeafFails(w, p, request);
    }
  }

  lemma StuckPage(w: Walk, p: Place)
    requires w.Shape() && w.On(p) && w.Stuck(p) && w.IssueOk(p.i) && Scans(w, p.i) && Answers(w, p.i)
    ensures PullState(w.s.AsClient(), w.cfg, Some(Text(w.CursorOf(p))), w.CursorOf(p)) == Err(InvalidResponse)
  {
    var client, c, i := w.s.AsClient(), w.CursorOf(p), p.i;
    var request := Some(Text(c));
    LogEndAt(w, request, c, i, w.TokenTo(i + 1));
    hide Walk.IssueOk, ScanIssue, Server.AsClient, Text, Units;
    assert PullChangelog(client, w.cfg, request, c)
        == ChangelogPage(client, w.cfg, request, c, w.s.issues[i].key, w.s.issues[i], 0, 0, w.TokenTo(i + 1));
    assert PullState(client, w.cfg, request, c) == PullChangelog(client, w.cfg, request, c);
  }

  lemma StuckAhead(w: Walk, p: Place)
    requires w.Shape() && w.On(p) && !Clear(w, p)
    ensures w.Land(p).Some? && w.On(w.Land(p).value)
    ensures w.Stuck(w.Land(p).value) ==> w.Land(p).value == p
    ensures !w.Stuck(w.Land(p).value) ==>
      Passable(w, p) && Next(w, p).Some? && w.On(Next(w, p).value) && !Clear(w, Next(w, p).value)
  {
    LandClear(w, p);
    LandFacts(w, p);
    if !w.Stuck(w.Land(p).value) {
      NextFacts(w, p);
      AdvanceClear(w, w.Land(p).value);
      hide Walk.Measure, Less, Clear, Walk.Advance, Walk.Land;
    }
  }

  /** Nothing on the way from `p` stops the walk. */
  ghost predicate Open(w: Walk, p: Place)
    requires w.Shape() && w.On(p)
  {
    Clear(w, p) && GoodFrom(w, p)
  }

  /** A pull that succeeds comes from no later issue without a history. */
  lemma NotStuck(w: Walk, p: Place, request: Option<string>)
    requires w.Valid() && w.On(p) && Requested(w, p, request) && Pull(w.s.AsClient(), w.cfg, request).Ok?
    ensures Passable(w, p)
    ensures !Clear(w, p) ==> Next(w, p).Some? && w.On(Next(w, p).value) && !Clear(w, Next(w, p).value)
  {
    assert w.Shape();
    if Clear(w, p) {
      ClearAdvance(w, p);
    } else {
      StuckAhead(w, p);
      if w.Stuck(w.Land(p).value) {
        StuckFails(w, p, request);
      }
    }
    hide Walk.Valid, Pull, Clear, Requested, Server.AsClient, Walk.Advance, Walk.Land, Walk.On;
  }

  lemma OutcomeOk(w: Walk, p: Place, page: Page)
    requires w.Shape() && Passable(w, p) && Outcome(w, p) == Ok(page)
    ensures w.Land(p).Some? ==> w.Hears(w.Land(p).value)
    ensures page.next == w.TextOfOpt(Next(w, p))
    ensures Next(w, p).Some? ==> TextSize(w.CursorOf(Next(w, p).value)) <= LIMIT
  {
    hide Text, TextSize, Walk.CursorOf, Walk.Emit, Walk.Advance, Walk.Land, Walk.Hears, Passable;
  }

  /** A pull that succeeds leads to a place with the same obstacle before it. */
  lemma ObstacleAhead(w: Walk, p: Place, request: Option<string>, page: Page)
    requires w.Valid() && Visited(w, p) && !Open(w, p) && Requested(w, p, request)
    requires Pull(w.s.AsClient(), w.cfg, request) == Ok(page)
    ensures Passable(w, p) && Next(w, p).Some? && Visited(w, Next(w, p).value)
    ensures page.next == Some(w.TextOf(Next(w, p).value)) && TextSize(w.CursorOf(Next(w, p).value)) <= LIMIT
    ensures !Open(w, Next(w, p).value)
  {
    assert w.Shape();
    NotStuck(w, p, request);
    PullFrom(w, p, request);
    OutcomeOk(w, p, page);
    RequestRead(w, p, request);
    hide Walk.Valid, Pull, Requested, Requestable, Decode, Text, TextSize, Server.AsClient, Outcome, Carries;
    GoodSteps(w, p, Next(w, p));
    LandVisits(w, p);
    hide Clear, GoodFrom, Visited, Walk.CursorOf, Walk.Advance, Walk.Land, Walk.Hears, Passable, Walk.Landed, Walk.On;
  }

  /** Behind an obstacle no run ends: a later issue without a history, a token that is refused, or a cursor that
      cannot be written or read. */
  lemma {:induction false} NoRun(w: Walk, p: Place, request: Option<string>, pages: seq<Page>)
    requires w.Valid() && w.cfg.Selects() && Visited(w, p) && !Open(w, p) && Requested(w, p, request)
    ensures !Run(w.s.AsClient(), w.cfg, request, pages)
    decreases |pages|
  {
    if pages != [] && Pull(w.s.AsClient(), w.cfg, request) == Ok(pages[0]) {
      ObstacleAhead(w, p, request, pages[0]);
      var next := Next(w, p).value;
      hide Walk.Valid, Clear, Open, Walk.Land, Walk.Advance, Server.AsClient, Pull, Walk.On, Visited, Text, TextSize, Fits, Walk.CursorOf,
           Passable, Next;
      if |pages| > 1 {
        if Carries(w.CursorOf(next)) {
          NoRun(w, next, pages[0].next, pages[1..]);
        } else {
          Unread(w, next);
        }
      }
    }
  }

  /** A text that was written and cannot be read. */
  lemma Unread(w: Walk, p: Place)
    requires TextSize(w.CursorOf(p)) <= LIMIT && !Carries(w.CursorOf(p))
    ensures Pull(w.s.AsClient(), w.cfg, Some(w.TextOf(p))).Err?
  {
    hide Text, TextSize, Fits, Walk.CursorOf, Server.AsClient, PullState;
    DecodeText(w.CursorOf(p));
  }

  // ---------- every run, and when there is one ----------

  /** The listing has no later issue without a history, or the walk leaves the changelog at its first issue. */
  ghost predicate Passes(w: Walk)
    requires w.Shape()
  {
    w.cfg.changelog && w.N() > 0 ==> w.s.histories[0] == [] || forall i :: 0 <= i < w.N() ==> w.s.histories[i] != []
  }

  /** The connector may read, takes every token it is answered with, and can write and read back the cursor of every
      place it comes to: its token is a bounded string, its key and offsets in range, and the text short enough. */
  ghost predicate Carried(w: Walk)
    requires w.Shape()
  {
    w.cfg.Selects() && forall p :: Visited(w, p) ==> w.Hears(p) && Carries(w.CursorOf(p))
  }

  lemma StartOpen(w: Walk)
    requires w.Valid()
    ensures Visited(w, AtIssues(0)) && Requested(w, AtIssues(0), None)
    ensures Passes(w) <==> Clear(w, AtIssues(0))
    ensures Carried(w) <==> w.cfg.Selects() && GoodFrom(w, AtIssues(0))
  {
    hide Walk.Hears, Carries, Walk.CursorOf, Config.Selects, Walk.LinksAt, Walk.ItemsAt, Walk.SprintsAtBoard;
    assert w.Shape();
    hide Walk.Valid;
    forall p | Visited(w, p)
      ensures NotBefore(w, AtIssues(0), p)
    {
    }
  }

  /** A run from the null cursor exists exactly when the walk passes every issue it comes to and its cursors are carried. */
  lemma RunExists(w: Walk)
    requires w.Valid()
    ensures (exists pages :: Run(w.s.AsClient(), w.cfg, None, pages)) <==> Passes(w) && Carried(w)
  {
    StartOpen(w);
    assert w.Shape();
    hide Walk.Valid, Clear, GoodFrom, Visited, Requested, Passes, Carried, Server.AsClient, Config.Selects, Run;
    if Passes(w) && Carried(w) {
      var pages := WalkFrom(w, AtIssues(0), None);
    } else {
      forall pages
        ensures !Run(w.s.AsClient(), w.cfg, None, pages)
      {
        if w.cfg.Selects() {
          NoRun(w, AtIssues(0), None, pages);
        } else {
          Unselected(w.s.AsClient(), w.cfg, pages);
        }
      }
    }
  }

  lemma Unselected(client: Client, cfg: Config, pages: seq<Page>)
    requires !cfg.Selects()
    ensures !Run(client, cfg, None, pages)
  {
  }

  /** Every run brings the issues first, each once and in listing order, later issues being repetitions;
      and the links, the changelog as walked, the boards and the sprints in order, with nothing in between. */
  lemma EveryRun(w: Walk, pages: seq<Page>)
    requires w.Valid() && Run(w.s.AsClient(), w.cfg, None, pages)
    ensures Passes(w) && Carried(w)
    ensures Entities(RecordsOf(pages)) == (if w.cfg.issueLinks then w.LinksFrom(0) else []) + w.RestAfterLinks()
    ensures IssueRecords(w.cfg, w.s.issues) <= IssuesIn(RecordsOf(pages))
    ensures forall r :: r in IssuesIn(RecordsOf(pages)) ==> Listed(w, r)
  {
    RunExists(w);
    StartOpen(w);
    assert w.Shape();
    hide Clear, Walk.Valid, GoodFrom, Visited, Requested, Passes, Carried, Server.AsClient, Config.Selects, Run;
    var walked := WalkFrom(w, AtIssues(0), None);
    RunIsUnique(w.s.AsClient(), w.cfg, None, pages, walked);
    assert w.s.issues[0..] == w.s.issues;
  }

  lemma {:induction false} ItemsEmpty(project: string, issueId: nat, historyId: nat, items: seq<Item>, ordinal: nat)
    ensures ItemRecords(project, issueId, historyId, items, ordinal) == [] <==> forall item :: item in items ==> !item.Mapped?
  {
    if items != [] {
      ItemsEmpty(project, issueId, historyId, items[1..], ordinal + 1);
    }
  }

  ghost predicate Unmapping(w: Walk, i: nat, h: nat)
    requires i < w.N() == |w.s.histories| && h < |w.s.histories[i]|
  {
    forall item :: item in w.ItemsAt(i, h) ==> !item.Mapped?
  }

  lemma {:induction false} HistoriesEmpty(w: Walk, i: nat, h: nat)
    requires w.Shape() && i < w.N() && h <= |w.s.histories[i]|
    ensures w.HistoriesFrom(i, h) == [] <==> forall k :: h <= k < |w.s.histories[i]| ==> Unmapping(w, i, k)
    decreases |w.s.histories[i]| - h
  {
    if h < |w.s.histories[i]| {
      HistoriesEmpty(w, i, h + 1);
      var issue, history := w.s.issues[i], w.s.histories[i][h];
      var first := w.HistoryRest(i, h, 0);
      assert w.ItemsAt(i, h)[0..] == w.ItemsAt(i, h);
      assert w.HistoriesFrom(i, h) == [] <==> first == [] && w.HistoriesFrom(i, h + 1) == [];
      ItemsEmpty(ProjectName(w.cfg, issue.key), if issue.id.Numeric? then issue.id.id else 0,
                 if history.id.Some? then history.id.value else 0, w.ItemsAt(i, h), 0);
      assert first == [] <==> Unmapping(w, i, h);
    }
  }

  lemma {:induction false} LogEmpty(w: Walk, i: nat)
    requires w.Shape() && i <= w.N()
    ensures w.LogFrom(i) == [] <==> forall j, k :: i <= j < w.N() && 0 <= k < |w.s.histories[j]| ==> Unmapping(w, j, k)
    decreases w.N() - i
  {
    if i == w.N() {
    } else {
      LogEmpty(w, i + 1);
      HistoriesEmpty(w, i, 0);
      assert w.LogFrom(i) == w.HistoriesFrom(i, 0) + w.LogFrom(i + 1);
      hide Walk.HistoriesFrom, Walk.LogFrom, Unmapping, Walk.Shape;
      assert w.LogFrom(i) == [] <==> w.HistoriesFrom(i, 0) == [] && w.LogFrom(i + 1) == [];
    }
  }

  /** What an operator can check of the listing: no issue without a history, or the first one has none and
      no history anywhere holds a mapped change. */
  ghost predicate ChangelogComplete(w: Walk)
    requires w.Shape()
  {
    w.cfg.changelog && w.N() > 0 ==>
      if w.s.histories[0] == []
      then forall j, k :: 0 <= j < w.N() && 0 <= k < |w.s.histories[j]| ==> Unmapping(w, j, k)
      else forall i :: 0 <= i < w.N() ==> w.s.histories[i] != []
  }

  lemma WalkedIsExpected(w: Walk)
    requires w.Shape() && Passes(w)
    ensures (if w.cfg.issueLinks then w.LinksFrom(0) else []) + w.RestAfterLinks() == w.Expected() <==> ChangelogComplete(w)
  {
    LogEmpty(w, 0);
    var links, sprints := if w.cfg.issueLinks then w.LinksFrom(0) else [], w.RestAfterLog();
    var walked, all := if w.cfg.changelog then w.LogWalked() else [], if w.cfg.changelog then w.LogFrom(0) else [];
    hide Walk.LinksFrom, Walk.RestAfterLog, Walk.LogFrom, Unmapping;
    Cancels(links, walked, all, sprints);
    assert w.RestAfterLinks() == walked + sprints && w.Expected() == links + (all + sprints);
    hide Walk.RestAfterLinks, Walk.Expected;
  }

  lemma Cancels<T>(a: seq<T>, b: seq<T>, c: seq<T>, d: seq<T>)
    ensures a + (b + d) == a + (c + d) <==> b == c
  {
    var x, y := a + (b + d), a + (c + d);
    if x == y {
      assert |b| == |c|;
      assert b == x[|a|..|a| + |b|] && c == y[|a|..|a| + |c|];
    }
  }

  /** The walk ends having brought every link, change, board and sprint exactly when the changelog is complete and the
      cursors are carried. */
  lemma EverythingIffChangelogComplete(w: Walk)
    requires w.Valid()
    ensures (exists pages :: Run(w.s.AsClient(), w.cfg, None, pages) && Entities(RecordsOf(pages)) == w.Expected())
      <==> ChangelogComplete(w) && Carried(w)
  {
    RunExists(w);
    assert w.Shape();
    hide Walk.Valid, Carried, Server.AsClient, Run;
    if Passes(w) && Carried(w) {
      WalkedIsExpected(w);
      var walked :| Run(w.s.AsClient(), w.cfg, None, walked);
      EveryRun(w, walked);
      forall pages | Run(w.s.AsClient(), w.cfg, None, pages)
        ensures Entities(RecordsOf(pages)) == Entities(RecordsOf(walked))
      {
        EveryRun(w, pages);
      }
    }
  }
}
