/** The theorems about whole walks: they end, and they bring every issue first and every entity exactly once,
    exactly when the changelog of the listing has the shape the walk relies on. */
module JiraExactlyOnce {
  import opened Wrappers
  import opened JiraKeys
  import opened JiraCursorCodec
  import opened JiraPaging
  import opened JiraServer
  import opened JiraWalk
  import opened JiraVisited
  import opened JiraEnumeration

  // ---------- one pull from any place ----------

  lemma LinkIssueRest(w: Walk, i: nat)
    requires w.Shape() && i < w.N() && w.On(AtLinks(i))
    ensures w.Rest(AtLinks(i)) == w.LinkRest(i, 0) + w.LinksFrom(i + 1) + w.RestAfterLinks()
  {
    hide Walk.LinkRest, Walk.RestAfterLinks;
  }

  lemma LogIssueRest(w: Walk, i: nat)
    requires w.Shape() && i < w.N() && w.On(AtLog(i)) && w.s.histories[i] != []
    ensures w.Rest(AtLog(i)) == w.LogRest(i, 0, 0) + w.LogFrom(i + 1) + w.RestAfterLog()
  {
    hide Walk.HistoryRest, Walk.RestAfterLog;
  }

  /** The page of a landed place. */
  lemma PlaceStands(w: Walk, p: Place)
    requires w.Valid() && w.Landed(p)
    ensures Follows(w, p, w.Advance(p))
    ensures Stands(w, w.Emit(p), w.Advance(p), w.Rest(p))
    ensures p.AtIssues? ==> forall r :: r in w.Emit(p) ==> r.IssueRecord?
  {
    AdvanceDecreases(w, p);
    ReadyAt(w, p);
    if p.AtIssues? {
      KeysDiffer(w);
      IssueStands(w, p.k);
    } else if p.AtSprints? {
      SprintStands(w, p.b, p.start);
    } else {
      hide Walk.Valid, Stands, Walk.IssueOk;
      if p.AtLinks? || p.InLinks? {
        LinkPlaceStands(w, p);
      } else {
        LogPlaceStands(w, p);
      }
    }
  }

  lemma KeysDiffer(w: Walk)
    requires w.Valid()
    ensures forall i, j :: 0 <= i < j < w.N() ==> w.s.issues[i].key != w.s.issues[j].key
  {
  }

  lemma LinkPlaceStands(w: Walk, p: Place)
    requires w.Shape() && w.Landed(p) && (p.AtLinks? || p.InLinks?) && w.IssueOk(p.i)
    requires Follows(w, p, w.Advance(p))
    ensures Stands(w, w.Emit(p), w.Advance(p), w.Rest(p))
  {
    hide Walk.IssueOk, Stands, Walk.LinkChunk, Walk.LinkRest, Walk.LinkStep, Walk.RestAfterLinks, OrParent, Walk.LinksFrom,
         Walk.Parent;
    if p.AtLinks? {
      LinkIssueRest(w, p.i);
      hide Walk.Rest;
      LinkStands(w, p.i, 0);
    } else {
      LinkStands(w, p.i, p.off);
    }
  }

  lemma LogPlaceStands(w: Walk, p: Place)
    requires w.Shape() && w.Landed(p) && (p.AtLog? || p.InLog?)
    requires Follows(w, p, w.Advance(p))
    ensures Stands(w, w.Emit(p), w.Advance(p), w.Rest(p))
  {
    hide Stands, Walk.LogChunk, Walk.LogRest, Walk.LogFrom, Walk.LogStep, Walk.RestAfterLog, OrParent, Walk.LogWalked;
    var i := p.i;
    if p.AtLog? && w.s.histories[i] != [] {
      LogIssueRest(w, i);
    }
    if w.s.histories[i] == [] {
      FirstEmptyStands(w);
    } else if p.InLog? && p.h == |w.s.histories[i]| {
      LogEndStands(w, i);
    } else {
      LogStands(w, i, if p.AtLog? then 0 else p.h, if p.AtLog? then 0 else p.off);
    }
  }

  /** A cursor that a landed place can be pulled for: its own, or one of an earlier phase. */
  predicate Asks(w: Walk, p: Place, c: Cursor)
    requires w.Shape()
  {
    c == w.CursorOf(p) || Rank(c) > Rank(w.CursorOf(p))
  }

  lemma CursorMoves(w: Walk, p: Place, c: Cursor)
    requires w.Shape() && w.Landed(p) && Asks(w, p, c) && Distinct(w.s.tokens)
    requires Follows(w, p, w.Advance(p))
    ensures w.Advance(p).Some? ==> w.CursorOf(w.Advance(p).value) != c
  {
  }

  /** The page is let out with the text of the next place's cursor, if that can be written. */
  function LetOut(w: Walk, emit: seq<Record>, next: Option<Place>): Result<Page, Error> {
    if next.Some? && TextSize(w.CursorOf(next.value)) > LIMIT then Err(InvalidResponse)
    else Ok(Page(emit, w.TextOfOpt(next)))
  }

  lemma WrittenPage(request: Option<string>, emit: seq<Record>, c: Cursor, next: Option<Cursor>)
    requires |emit| <= 100 && !Repeats(emit) && (next.Some? ==> emit != [] && next.value != c)
    requires request.None? || request == Some(Text(c))
    ensures Validated(request, emit, next)
         == if next.None? then Ok(Page(emit, None)) else if TextSize(next.value) > LIMIT then Err(InvalidResponse)
            else Ok(Page(emit, Some(Text(next.value))))
  {
    if next.Some? {
      RoundTrip(next.value);
      if Text(next.value) == Text(c) {
        TextInjective(next.value, c);
      }
    }
    hide Text, TextSize, Repeats, Fits, Units;
  }

  lemma Accepted(w: Walk, p: Place, c: Cursor, request: Option<string>)
    requires w.Valid() && w.Landed(p) && Asks(w, p, c) && (request.None? || request == Some(Text(c)))
    ensures Validated(request, w.Emit(p), w.CursorOfOpt(w.Advance(p))) == LetOut(w, w.Emit(p), w.Advance(p))
  {
    PlaceStands(w, p);
    CursorMoves(w, p, c);
    hide Walk.Valid, Walk.Emit, Walk.Advance, Walk.Landed, Walk.CursorOf, Walk.On, Validated, Text, TextSize, Repeats, Asks,
         Follows, Walk.Rest, Entities, Listed;
    WrittenPage(request, w.Emit(p), c, w.CursorOfOpt(w.Advance(p)));
  }

  // ---------- places with nothing left in their phase ----------

  /** Pulling from `p` is pulling from `q`, or answers the empty last page. */
  ghost predicate SameAs(w: Walk, p: Place, q: Option<Place>, request: Option<string>)
    requires w.Shape()
  {
    PullState(w.s.AsClient(), w.cfg, request, w.CursorOf(p))
    == (if q.Some? then PullState(w.s.AsClient(), w.cfg, request, w.CursorOf(q.value)) else Validated(request, [], None))
  }

  lemma LogEnds(w: Walk, i: nat, request: Option<string>)
    requires w.Valid() && w.On(AtLog(i))
    ensures SameAs(w, AtLog(i), w.LandLog(i), request)
  {
    if i == w.N() {
      ScanFinds(w, i);
      PhaseCursors(w);
      hide Walk.Valid, ScanIssue, Server.AsClient;
      assert PullChangelog(w.s.AsClient(), w.cfg, request, w.CursorOf(AtLog(i)))
          == (if w.cfg.sprints then PullState(w.s.AsClient(), w.cfg, request, Sprints(0, 0)) else Validated(request, [], None));
    }
  }

  lemma LinksEnd(w: Walk, i: nat, request: Option<string>)
    requires w.Valid() && w.On(AtLinks(i))
    ensures SameAs(w, AtLinks(i), w.LandLinks(i), request)
  {
    if i == w.N() {
      ScanFinds(w, i);
      PhaseCursors(w);
      assert w.Shape();
      hide Walk.Valid, Walk.Shape, ScanIssue, Server.AsClient, Walk.LandLog;
      if w.cfg.changelog {
        LogEnds(w, 0, request);
      }
      var next := AfterLinks(w.cfg);
      assert PullLinks(w.s.AsClient(), w.cfg, request, w.CursorOf(AtLinks(i)))
          == (if next.Some? then PullState(w.s.AsClient(), w.cfg, request, next.value) else Validated(request, [], None));
    }
  }

  lemma EmptyIssuePage(client: Client, cfg: Config, request: Option<string>, token: Option<string>, page: SearchPage)
    requires client.search(token, cfg.pageSize) == Some(page)
    requires page.issues == [] && Sent(page.nextToken).None? && !TokenRefused(page, token) && FirstEntityPhase(cfg).Some?
    ensures PullState(client, cfg, request, Issues(token)) == PullState(client, cfg, request, FirstEntityPhase(cfg).value)
  {
    hide TokenRefused;
    assert PullIssues(client, cfg, request, token) == PullState(client, cfg, request, FirstEntityPhase(cfg).value);
  }

  /** The phase after the issues, entered at its start, stands for where it lands. */
  lemma AfterIssuesEnd(w: Walk, request: Option<string>)
    requires w.Valid()
    ensures w.cfg.issueLinks ==> SameAs(w, AtLinks(0), w.LandLinks(0), request)
    ensures w.cfg.changelog ==> SameAs(w, AtLog(0), w.LandLog(0), request)
  {
    hide Walk.Valid, SameAs;
    if w.cfg.issueLinks {
      LinksEnd(w, 0, request);
    }
    if w.cfg.changelog {
      LogEnds(w, 0, request);
    }
  }

  /** Asked for issues after the last one, the pull goes on with the next phase. */
  lemma NoMoreIssues(w: Walk, k: nat, request: Option<string>)
    requires w.Valid() && w.On(AtIssues(k)) && k == w.N()
    ensures FirstEntityPhase(w.cfg).Some?
    ensures PullState(w.s.AsClient(), w.cfg, request, w.CursorOf(AtIssues(k)))
         == PullState(w.s.AsClient(), w.cfg, request, FirstEntityPhase(w.cfg).value)
  {
    SearchAnswer(w, k, w.cfg.pageSize);
    PageAccepted(w, k, w.cfg.pageSize);
    hide Walk.Valid, Server.AsClient, TokenRefused, PullState, Server.SearchAt;
    EmptyIssuePage(w.s.AsClient(), w.cfg, request, w.StartToken(k), w.s.SearchAt(k, w.cfg.pageSize));
  }

  lemma SameAsThrough(w: Walk, p: Place, first: Place, q: Option<Place>, request: Option<string>)
    requires w.Shape() && SameAs(w, first, q, request)
    requires PullState(w.s.AsClient(), w.cfg, request, w.CursorOf(p)) == PullState(w.s.AsClient(), w.cfg, request, w.CursorOf(first))
    ensures SameAs(w, p, q, request)
  {
    hide PullState, Server.AsClient, Walk.CursorOf, Validated, Walk.Shape;
  }

  lemma PlaceItself(w: Walk, p: Place, request: Option<string>)
    requires w.Shape()
    ensures SameAs(w, p, Some(p), request)
  {
    hide PullState, Server.AsClient, Walk.CursorOf, Validated, Walk.Shape;
  }

  lemma IssuesEnd(w: Walk, k: nat, request: Option<string>)
    requires w.Valid() && w.On(AtIssues(k))
    ensures SameAs(w, AtIssues(k), w.Land(AtIssues(k)), request)
  {
    assert w.Shape();
    assert w.cfg.issueLinks || w.cfg.changelog || w.cfg.sprints;
    hide Walk.LandLinks, Walk.LandLog, Walk.Valid, Walk.Shape, Server.AsClient, PullState, Validated, Walk.On, SameAs;
    if k < w.N() {
      PlaceItself(w, AtIssues(k), request);
    } else if k == w.N() {
      NoMoreIssues(w, k, request);
      AfterIssuesEnd(w, request);
      var first := if w.cfg.issueLinks then AtLinks(0) else if w.cfg.changelog then AtLog(0) else AtSprints(0, 0);
      assert w.CursorOf(first) == FirstEntityPhase(w.cfg).value;
      if first.AtSprints? { PlaceItself(w, first, request); }
      SameAsThrough(w, AtIssues(k), first, w.Land(AtIssues(k)), request);
    }
  }

  lemma LandFacts(w: Walk, p: Place)
    requires w.Shape() && w.On(p) && w.Land(p).Some?
    ensures var q := w.Land(p).value;
      && w.On(q) && (w.Landed(q) || w.Stuck(q)) && Asks(w, q, w.CursorOf(p))
      && (q == p || Less(w.Measure(q), w.Measure(p)))
  {
  }

  /** Where a place lands, the same records are still to come, and no more is left to do. */
  lemma Lands(w: Walk, p: Place, request: Option<string>)
    requires w.Valid() && w.On(p)
    ensures SameAs(w, p, w.Land(p), request)
    ensures w.Land(p).Some? ==> w.On(w.Land(p).value)
    ensures w.RestOpt(w.Land(p)) == w.Rest(p)
  {
    LandRests(w, p);
    hide Walk.Rest, Walk.RestOpt;
    match p {
      case AtIssues(k) => IssuesEnd(w, k, request);
      case AtLinks(i) => LinksEnd(w, i, request);
      case AtLog(i) => LogEnds(w, i, request);
      case _ =>
    }
  }

  lemma LandLogRest(w: Walk, i: nat)
    requires w.Shape() && w.On(AtLog(i))
    ensures w.LandLog(i).Some? ==> w.On(w.LandLog(i).value)
    ensures w.RestOpt(w.LandLog(i)) == w.Rest(AtLog(i))
  {
    if i == w.N() {
      assert (if i == 0 then w.LogWalked() else w.LogFrom(i)) == [];
      assert w.Rest(AtLog(i)) == [] + w.RestAfterLog();
      PhaseRests(w);
      hide Walk.LogFrom, Walk.LogWalked, Walk.RestAfterLog, Walk.SprintPlace, Walk.Rest, Walk.RestOpt;
      assert [] + w.RestAfterLog() == w.RestAfterLog();
    } else {
      hide Walk.Rest;
    }
  }

  lemma LandLinksRest(w: Walk, i: nat)
    requires w.Shape() && w.On(AtLinks(i))
    ensures w.LandLinks(i).Some? ==> w.On(w.LandLinks(i).value)
    ensures w.RestOpt(w.LandLinks(i)) == w.Rest(AtLinks(i))
  {
    if i == w.N() {
      assert w.LinksFrom(i) == [];
      AfterLinksLands(w);
      AtLinksRest(w, i);
      hide Walk.Rest, Walk.LinksFrom, Walk.RestAfterLinks, Walk.RestOpt;
      assert [] + w.RestAfterLinks() == w.RestAfterLinks();
    }
  }

  /** The phases after the links, entered at their start. */
  lemma AfterLinksLands(w: Walk)
    requires w.Shape()
    ensures var next := if w.cfg.changelog then w.LandLog(0) else w.SprintPlace();
      && (next.Some? ==> w.On(next.value)) && w.RestOpt(next) == w.RestAfterLinks()
  {
    PhaseRests(w);
    if w.cfg.changelog {
      LandLogRest(w, 0);
      hide Walk.LandLog, Walk.LogFrom, Walk.RestAfterLog, Walk.LogWalked;
    }
  }

  lemma LandIssuesRest(w: Walk, k: nat)
    requires w.Shape() && w.On(AtIssues(k))
    ensures w.Land(AtIssues(k)).Some? ==> w.On(w.Land(AtIssues(k)).value)
    ensures w.RestOpt(w.Land(AtIssues(k))) == w.Rest(AtIssues(k))
  {
    if k == w.N() {
      if w.cfg.issueLinks {
        LandLinksRest(w, 0);
        AtLinksRest(w, 0);
      } else {
        AfterLinksLands(w);
      }
      hide Walk.LandLinks, Walk.LandLog, Walk.RestOpt, Walk.LinksFrom, Walk.RestAfterLinks;
      assert [] + w.RestAfterLinks() == w.RestAfterLinks();
    }
  }

  lemma LandRests(w: Walk, p: Place)
    requires w.Shape() && w.On(p)
    ensures w.Land(p).Some? ==> w.On(w.Land(p).value)
    ensures w.RestOpt(w.Land(p)) == w.Rest(p)
  {
    match p {
      case AtIssues(k) => LandIssuesRest(w, k);
      case AtLinks(i) => LandLinksRest(w, i); hide Walk.Rest, Walk.LandLinks;
      case AtLog(i) => LandLogRest(w, i); hide Walk.Rest, Walk.LandLog;
      case _ => hide Walk.Rest;
    }
  }

  // ---------- whole walks ----------

  /** The walk never comes to a later issue without a history. */
  ghost predicate Clear(w: Walk, p: Place)
    requires w.Shape() && w.On(p)
  {
    w.cfg.changelog && w.N() > 0 ==>
      match p
      case AtSprints(_, _) => true
      case AtLog(i) => (i == 0 && w.s.histories[0] == []) || forall j :: i <= j < w.N() ==> w.s.histories[j] != []
      case InLog(i, _, _) => forall j :: i <= j < w.N() ==> w.s.histories[j] != []
      case _ => w.s.histories[0] == [] || forall j :: 0 <= j < w.N() ==> w.s.histories[j] != []
  }

  /** A place and where it lands are clear or not together. */
  lemma LandClear(w: Walk, p: Place)
    requires w.Shape() && w.On(p)
    ensures w.Land(p).None? ==> Clear(w, p)
    ensures w.Land(p).Some? ==> w.On(w.Land(p).value) && (Clear(w, p) <==> Clear(w, w.Land(p).value))
  {
  }

  lemma AdvanceClear(w: Walk, q: Place)
    requires w.Shape() && w.Landed(q) && (w.Advance(q).Some? ==> w.On(w.Advance(q).value))
    ensures Clear(w, q) <==> (w.Advance(q).Some? ==> Clear(w, w.Advance(q).value))
  {
    hide Walk.LinksAt, Walk.ItemsAt;
  }

  lemma ClearAdvance(w: Walk, p: Place)
    requires w.Shape() && w.On(p) && Clear(w, p)
    ensures w.Land(p).Some? ==>
      var q := w.Land(p).value;
      && w.Landed(q) && Follows(w, q, w.Advance(q))
      && (w.Advance(q).Some? ==> Clear(w, w.Advance(q).value))
  {
    if w.Land(p).Some? {
      LandFacts(w, p);
      LandClear(w, p);
      AdvanceDecreases(w, w.Land(p).value);
      AdvanceClear(w, w.Land(p).value);
      hide Walk.Measure, Less, Walk.Advance, Walk.Land;
    }
  }

  ghost predicate Passable(w: Walk, p: Place)
    requires w.Shape()
  {
    w.On(p) && (w.Land(p).Some? ==> w.Landed(w.Land(p).value))
  }

  ghost function Emitted(w: Walk, p: Place): seq<Record>
    requires w.Shape() && Passable(w, p)
  {
    if w.Land(p).Some? then w.Emit(w.Land(p).value) else []
  }

  ghost function Next(w: Walk, p: Place): Option<Place>
    requires w.Shape() && Passable(w, p)
  {
    if w.Land(p).Some? then w.Advance(w.Land(p).value) else None
  }

  /** The request leads to place `p`: no cursor at all, or a text that can be read. */
  ghost predicate Requested(w: Walk, p: Place, request: Option<string>) {
    (request.None? && p == AtIssues(0)) || (request == Some(w.TextOf(p)) && Carries(w.CursorOf(p)))
  }

  lemma TextRequestable(c: Cursor)
    requires Carries(c)
    ensures Requestable(Text(c)) && Decode(Some(Text(c))) == Ok(c)
  {
    TextUnits(c);
    NeverLegacy(c);
    DecodeText(c);
    hide Text, TextSize, Units, Fits, Decode;
    assert Text(c)[0] == '[' && Text(c)[0] in Text(c);
  }

  lemma RequestRead(w: Walk, p: Place, request: Option<string>)
    requires Requested(w, p, request)
    ensures request.Some? ==> Requestable(request.value)
    ensures Decode(request) == Ok(w.CursorOf(p))
    ensures request.None? || request == Some(Text(w.CursorOf(p)))
    ensures Carries(w.CursorOf(p))
  {
    StartCarries(w);
    hide Text, TextSize, Fits, Requestable;
    if request.Some? {
      TextRequestable(w.CursorOf(p));
      hide Decode, Walk.CursorOf;
    }
  }

  /** What a pull from a place answers. */
  ghost function Outcome(w: Walk, p: Place): Result<Page, Error>
    requires w.Shape() && Passable(w, p)
  {
    if !w.cfg.Selects() then Err(PermissionDenied)
    else if w.Land(p).Some? && !w.Hears(w.Land(p).value) then Err(InvalidResponse)
    else LetOut(w, Emitted(w, p), Next(w, p))
  }

  /** A pull whose place is not a later issue without a history: the page and the text of the next cursor, or an
      error where the search answers with a token that is refused or the next cursor is too long to be written. */
  lemma PullFrom(w: Walk, p: Place, request: Option<string>)
    requires w.Valid() && Passable(w, p) && Requested(w, p, request)
    ensures Pull(w.s.AsClient(), w.cfg, request) == Outcome(w, p)
  {
    assert w.Shape();
    var c := w.CursorOf(p);
    RequestRead(w, p, request);
    Lands(w, p, request);
    hide Walk.Valid, Walk.Shape, Validated, PullState, Requested, Requestable, Decode, Text, Carries, Server.AsClient, Walk.CursorOf,
         Walk.Land, Walk.On, Walk.Landed, Walk.Emit, Walk.Advance, Walk.Rest, Walk.RestOpt, Walk.Hears;
    assert Pull(w.s.AsClient(), w.cfg, request)
        == if !w.cfg.Selects() then Err(PermissionDenied) else PullState(w.s.AsClient(), w.cfg, request, c);
    StateFrom(w, p, request);
  }

  lemma StateFrom(w: Walk, p: Place, request: Option<string>)
    requires w.Valid() && Passable(w, p) && SameAs(w, p, w.Land(p), request)
    requires request.None? || request == Some(Text(w.CursorOf(p)))
    ensures w.cfg.Selects() ==> PullState(w.s.AsClient(), w.cfg, request, w.CursorOf(p)) == Outcome(w, p)
  {
    if w.Land(p).Some? {
      LandFacts(w, p);
      var q := w.Land(p).value;
      if w.Hears(q) {
        PullAt(w, q, request);
        Accepted(w, q, w.CursorOf(p), request);
      } else {
        DeafFails(w, q, request);
      }
    }
    hide Walk.Valid, PullState, Walk.Hears, Walk.CursorOf, Text, TextSize, Walk.Rest;
  }

  lemma {:induction false} IssueRecordsAppend(cfg: Config, a: seq<Issue>, b: seq<Issue>)
    ensures IssueRecords(cfg, a + b) == IssueRecords(cfg, a) + IssueRecords(cfg, b)
  {
    if a == [] {
      assert a + b == b;
    } else {
      assert (a + b)[0] == a[0] && (a + b)[1..] == a[1..] + b;
      IssueRecordsAppend(cfg, a[1..], b);
    }
  }

  function IssuesDue(w: Walk, p: Place): seq<Record> {
    if p.AtIssues? && p.k <= w.N() then IssueRecords(w.cfg, w.s.issues[p.k..]) else []
  }

  /** What a run from a place brings. */
  ghost predicate Brings(w: Walk, p: Place, rs: seq<Record>)
    requires w.Shape() && w.On(p)
  {
    && Entities(rs) == w.Rest(p)
    && IssuesDue(w, p) <= IssuesIn(rs)
    && forall r :: r in IssuesIn(rs) ==> Listed(w, r)
  }

  lemma PageDue(w: Walk, k: nat, rest: seq<Record>)
    requires w.Shape() && w.Landed(AtIssues(k)) && Follows(w, AtIssues(k), w.Advance(AtIssues(k)))
    requires forall r :: r in w.IssueChunk(k) ==> r.IssueRecord?
    requires w.Advance(AtIssues(k)).Some? ==> IssuesDue(w, w.Advance(AtIssues(k)).value) <= IssuesIn(rest)
    ensures IssuesDue(w, AtIssues(k)) <= IssuesIn(w.IssueChunk(k) + rest)
  {
    var end := w.End(k, w.N(), Min(w.cfg.pageSize, w.s.width));
    assert w.s.issues[k..] == w.s.issues[k..end] + w.s.issues[end..];
    IssueRecordsAppend(w.cfg, w.s.issues[k..end], w.s.issues[end..]);
    FilterAll((r: Record) => r.IssueRecord?, w.IssueChunk(k));
    EntitiesAppend(w.IssueChunk(k), rest);
    assert IssueRecords(w.cfg, w.s.issues[end..]) <= IssuesIn(rest) by {
      if !w.s.More(end) {
        assert w.s.issues[end..] == [];
      }
    }
  }

  /** A page in front of what the rest of the run brings. */
  lemma PageBrings(w: Walk, q: Place, emit: seq<Record>, next: Option<Place>, rest: seq<Record>)
    requires w.Shape() && w.On(q) && (next.Some? ==> w.On(next.value))
    requires Stands(w, emit, next, w.Rest(q))
    requires if next.Some? then Brings(w, next.value, rest) else rest == []
    requires IssuesDue(w, q) <= IssuesIn(emit + rest)
    ensures Brings(w, q, emit + rest)
  {
    hide Walk.Rest, Repeats, Listed, IssuesDue;
    EntitiesAppend(emit, rest);
  }

  lemma PageDueAt(w: Walk, p: Place, q: Place, rest: seq<Record>)
    requires w.Shape() && w.On(p) && w.Land(p) == Some(q) && w.Landed(q) && Follows(w, q, w.Advance(q))
    requires q.AtIssues? ==> forall r :: r in w.Emit(q) ==> r.IssueRecord?
    requires w.Advance(q).Some? ==> Brings(w, w.Advance(q).value, rest)
    ensures IssuesDue(w, q) <= IssuesIn(w.Emit(q) + rest)
    ensures p != q ==> IssuesDue(w, p) == []
  {
    hide Walk.Rest;
    if q.AtIssues? {
      PageDue(w, q.k, rest);
    }
  }

  lemma NextFacts(w: Walk, p: Place)
    requires w.Shape() && Passable(w, p)
    ensures Follows(w, p, Next(w, p))
  {
    if w.Land(p).Some? {
      LandFacts(w, p);
      AdvanceDecreases(w, w.Land(p).value);
      hide Walk.Measure, Walk.Advance;
    }
  }

  lemma NothingDue(w: Walk, p: Place)
    requires w.Shape() && w.On(p) && w.Land(p).None?
    ensures IssuesDue(w, p) == []
  {
  }

  lemma PullBrings(w: Walk, p: Place, rest: seq<Record>)
    requires w.Valid() && Passable(w, p)
    requires Next(w, p).Some? ==> w.On(Next(w, p).value)
    requires if Next(w, p).Some? then Brings(w, Next(w, p).value, rest) else rest == []
    ensures Brings(w, p, Emitted(w, p) + rest)
  {
    LandRests(w, p);
    assert w.Shape();
    if w.Land(p).Some? {
      var q := w.Land(p).value;
      PlaceStands(w, q);
      assert Emitted(w, p) == w.Emit(q) && Next(w, p) == w.Advance(q) && w.Rest(p) == w.Rest(q);
      hide Walk.Valid, Walk.Shape, Stands, Walk.Rest, Walk.RestOpt, Walk.Emit, Walk.Land, Walk.Advance, Walk.On, Walk.Landed,
           Emitted, Next, IssuesDue, Brings;
      PageDueAt(w, p, q, rest);
      PageBrings(w, q, w.Emit(q), w.Advance(q), rest);
      SameBrought(w, p, q, w.Emit(q) + rest);
    } else {
      NothingDue(w, p);
      hide Walk.Valid, Walk.Shape, Walk.Rest, Walk.Land, Walk.On, Walk.Landed;
    }
  }

  /** What is brought from a landing place is brought from the place that lands there. */
  lemma SameBrought(w: Walk, p: Place, q: Place, rs: seq<Record>)
    requires w.Shape() && w.On(p) && w.On(q) && w.Rest(p) == w.Rest(q) && (p == q || IssuesDue(w, p) == [])
    requires Brings(w, q, rs)
    ensures Brings(w, p, rs)
  {
    hide Walk.Rest, IssuesDue, Entities, IssuesIn;
  }

  /** One pull from a place off the exception lets out a page and leads to a place with less left to do, as long
      as every cursor to come can be written and read. */
  lemma PullSteps(w: Walk, p: Place, request: Option<string>)
    requires w.Valid() && w.cfg.Selects() && Visited(w, p) && Clear(w, p) && GoodFrom(w, p) && Requested(w, p, request)
    ensures Passable(w, p) && Follows(w, p, Next(w, p))
    ensures Pull(w.s.AsClient(), w.cfg, request) == Ok(Page(Emitted(w, p), w.TextOfOpt(Next(w, p))))
    ensures var next := Next(w, p);
      next.Some? ==> Visited(w, next.value) && Clear(w, next.value) && GoodFrom(w, next.value)
                     && Requested(w, next.value, Some(w.TextOf(next.value)))
  {
    assert w.Shape();
    assert w.On(p);
    ClearAdvance(w, p);
    NextFacts(w, p);
    GoodSteps(w, p, Next(w, p));
    if Next(w, p).Some? {
      assert NotBefore(w, Next(w, p).value, Next(w, p).value);
      assert Good(w, Next(w, p).value);
    }
    hide Walk.Valid, Walk.Emit, Walk.Measure, Pull, Clear, Server.AsClient, Walk.Land, Walk.Advance, Walk.On, Walk.Landed, GoodFrom,
         Visited, Walk.Hears, Walk.CursorOf, Follows, Less, TextSize, Fits;
    PullFrom(w, p, request);
  }

  /** The walk from a place ends, and brings what is still to come. */
  lemma {:induction false} WalkFrom(w: Walk, p: Place, request: Option<string>) returns (pages: seq<Page>)
    requires w.Valid() && w.cfg.Selects() && Visited(w, p) && Clear(w, p) && GoodFrom(w, p) && Requested(w, p, request)
    ensures Run(w.s.AsClient(), w.cfg, request, pages)
    ensures Brings(w, p, RecordsOf(pages))
    decreases w.Measure(p).0, w.Measure(p).1, w.Measure(p).2, w.Measure(p).3
  {
    assert w.Shape();
    assert w.On(p);
    hide Walk.Valid, Walk.Shape, Walk.Emit, Walk.Measure, Pull, Clear, Server.AsClient, Brings, Walk.On, Passable, Next,
         Emitted, Run, RecordsOf, Visited, GoodFrom, Requested, Walk.TextOf;
    PullSteps(w, p, request);
    var next := Next(w, p);
    var rest := [];
    if next.Some? {
      rest := WalkFrom(w, next.value, Some(w.TextOf(next.value)));
    }
    PullBrings(w, p, RecordsOf(rest));
    pages := [Page(Emitted(w, p), w.TextOfOpt(next))] + rest;
    RunBy(w.s.AsClient(), w.cfg, request, pages[0], rest);
  }

  lemma RunBy(client: Client, cfg: Config, start: Option<string>, page: Page, rest: seq<Page>)
    requires Pull(client, cfg, start) == Ok(page)
    requires if page.next.None? then rest == [] else Run(client, cfg, page.next, rest)
    ensures Run(client, cfg, start, [page] + rest)
    ensures RecordsOf([page] + rest) == page.records + RecordsOf(rest)
  {
    assert ([page] + rest)[1..] == rest;
  }
}
