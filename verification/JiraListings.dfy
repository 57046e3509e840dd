/** Three listings of two issues that a walk does not bring whole: one loses a change, two end with an error. */
module JiraListings {
  import opened Wrappers
  import opened JiraKeys
  import opened JiraCursorCodec
  import opened JiraPaging
  import opened JiraServer
  import opened JiraWalk
  import opened JiraVisited
  import opened JiraEnumeration
  import opened JiraExactlyOnce
  import opened JiraTheorems
  import opened JiraCursorLimits

  const CONFIG := Config([Project("A", "p")], {"p"}, false, true, false, [], 1)

  const FIRST := Issue("A-1", Numeric(1), "A", true, Some([]))

  const SECOND := Issue("A-2", Numeric(2), "A", true, Some([]))

  const CHANGED := History(Some(1), true, Some([Mapped(7)]))

  /** The two issues with their histories, listed one by one. */
  function Listing(first: seq<History>, second: seq<History>, middle: string): Walk {
    Walk(Server([FIRST, SECOND], [first, second], ["a", middle, "c"], map[], 1, 1, false, false, false, false), CONFIG)
  }

  lemma KeyIsFine(w: Walk, issue: Issue)
    requires w.cfg == CONFIG && (issue == FIRST || issue == SECOND)
    ensures w.s.IssueValid(CONFIG, issue)
  {
    var key := issue.key;
    assert key[..1] == "A" && key[1] == '-' && IsProjectKey("A") && IsIssueNumber(key[2..]);
    assert key[..2] == "A-";
  }

  lemma ListingIsValid(first: seq<History>, second: seq<History>, middle: string)
    requires first in [[], [CHANGED]] && second in [[], [CHANGED]] && middle !in ["", "a", "c"]
    ensures Listing(first, second, middle).Valid() && CONFIG.Selects()
  {
    var w := Listing(first, second, middle);
    KeyIsFine(w, FIRST);
    KeyIsFine(w, SECOND);
    hide Server.IssueValid, IssueRefused;
    assert "a"[0] != "c"[0];
    assert FIRST.key[2] != SECOND.key[2];
    assert CONFIG.projects[0] in CONFIG.projects;
  }

  lemma LetterIsShort(t: string)
    requires |t| == 1 && 'a' <= t[0] <= 'z'
    ensures ShortToken(t)
  {
    PlainSize(t);
    hide EscapedUnits;
  }

  lemma ShortIsOrdinary(first: seq<History>, second: seq<History>)
    requires first in [[], [CHANGED]] && second in [[], [CHANGED]]
    ensures Listing(first, second, "b").Valid() && CONFIG.Selects() && Ordinary(Listing(first, second, "b"))
  {
    assert "a"[0] != "b"[0] && "b"[0] != "c"[0];
    ListingIsValid(first, second, "b");
    hide Walk.Valid, Config.Selects;
    SmallIsOrdinary(first, second);
  }

  lemma SmallIsOrdinary(first: seq<History>, second: seq<History>)
    requires |first| <= 1 && |second| <= 1
    ensures Listing(first, second, "b").Shape() && Ordinary(Listing(first, second, "b"))
  {
    LetterIsShort("a");
    LetterIsShort("b");
    LetterIsShort("c");
    hide ShortToken;
    var w := Listing(first, second, "b");
    assert forall i :: 0 <= i < 2 ==> |w.s.histories[i]| <= 1;
  }

  // ---------- a change that is skipped ----------

  /** The first issue has no history, the second has a change: the walk ends normally, no run brings the change, and it
      should have come. */
  lemma ChangeIsSkipped()
    ensures var w := Listing([], [CHANGED], "b");
      && w.Valid()
      && (exists pages :: Run(w.s.AsClient(), w.cfg, None, pages))
      && (forall pages :: Run(w.s.AsClient(), w.cfg, None, pages) ==> Entities(RecordsOf(pages)) == [])
      && w.Expected() == [ChangelogRecord("p", 2, 1, 0, 7)]
  {
    var w := Listing([], [CHANGED], "b");
    ShortIsOrdinary([], [CHANGED]);
    OrdinaryIsCarried(w);
    assert Passes(w);
    OneChange(w);
    assert !w.cfg.issueLinks && w.RestAfterLinks() == [];
    hide Listing, Walk.Valid, Walk.RestAfterLinks, Walk.Expected, Ordinary, Run, Server.AsClient, Carried, Passes, Config.Selects;
    RunExists(w);
    forall pages | Run(w.s.AsClient(), w.cfg, None, pages)
      ensures Entities(RecordsOf(pages)) == []
    {
      EveryRun(w, pages);
    }
  }

  lemma OneChange(w: Walk)
    requires w == Listing([], [CHANGED], "b")
    ensures w.Expected() == [ChangelogRecord("p", 2, 1, 0, 7)]
  {
    assert SECOND.key[..2] == "A-";
    assert ProjectName(CONFIG, SECOND.key) == "p";
    assert [Mapped(7)][0..] == [Mapped(7)] && [Mapped(7)][1..] == [];
    assert w.HistoryRest(1, 0, 0) == [ChangelogRecord("p", 2, 1, 0, 7)];
    assert w.HistoriesFrom(1, 0) == w.HistoryRest(1, 0, 0) + w.HistoriesFrom(1, 1);
    assert w.HistoriesFrom(1, 1) == [] && w.HistoriesFrom(0, 0) == [] && w.LogFrom(2) == [];
    assert w.LogFrom(1) == w.HistoriesFrom(1, 0) + w.LogFrom(2);
    assert w.LogFrom(0) == w.HistoriesFrom(0, 0) + w.LogFrom(1);
  }

  // ---------- an issue that cannot be passed ----------

  /** The first issue has a change, the second no history: every cursor can be carried, and the pull that asks for the
      second issue's changelog fails, so that no run ends. */
  lemma LaterIssueStops()
    ensures var w := Listing([CHANGED], [], "b");
      && w.Valid() && Carried(w)
      && Pull(w.s.AsClient(), w.cfg, Some(Text(Changelog(Some("b"), None, 0, 0)))) == Err(InvalidResponse)
      && !exists pages :: Run(w.s.AsClient(), w.cfg, None, pages)
  {
    var w, p := Listing([CHANGED], [], "b"), AtLog(1);
    ShortIsOrdinary([CHANGED], []);
    OrdinaryIsCarried(w);
    SecondIsStuck(w);
    hide Listing, Walk.Valid, Walk.Shape, Walk.On, Walk.Stuck, Walk.CursorOf, Visited, Ordinary, Text, Pull, Run, Server.AsClient, Carries,
         Carried, Passes, Config.Selects;
    StuckFails(w, p, Some(w.TextOf(p)));
    RunExists(w);
  }

  lemma SecondIsStuck(w: Walk)
    requires w == Listing([CHANGED], [], "b") && Carried(w)
    ensures w.Shape() && w.On(AtLog(1)) && w.Stuck(AtLog(1)) && w.CursorOf(AtLog(1)) == Changelog(Some("b"), None, 0, 0)
    ensures Carries(w.CursorOf(AtLog(1))) && !Passes(w)
  {
    hide Carries;
    assert Visited(w, AtLog(1));
    assert w.s.histories[1] == [] && w.s.histories[0] == [CHANGED];
  }

  // ---------- a token that does not fit into a cursor ----------

  const LONG := seq(2040, _ => 'x')

  /** Both issues have a change, and the token to the second is within the connector's own limit; but no cursor with it
      can be written, and so the first pull fails. */
  lemma LongTokenStops()
    ensures var w := Listing([CHANGED], [CHANGED], LONG);
      && w.Valid() && Bounded(LONG, LIMIT) && Passes(w) && ChangelogComplete(w)
      && Pull(w.s.AsClient(), w.cfg, None) == Err(InvalidResponse)
      && !exists pages :: Run(w.s.AsClient(), w.cfg, None, pages)
  {
    var w := Listing([CHANGED], [CHANGED], LONG);
    assert |LONG| != |"a"| && |LONG| != |"c"|;
    ListingIsValid([CHANGED], [CHANGED], LONG);
    PlainBounded(LONG, LIMIT);
    SecondIsLong(w);
    StartOpen(w);
    hide Listing, Walk.Valid, Walk.Shape, TextSize, Units, Bounded, Text, Pull, Run, Server.AsClient, Requested, Visited, Clear, GoodFrom,
         Passable, Next, Emitted, Walk.Hears, Walk.CursorOf, Walk.Land, Config.Selects;
    PullFrom(w, AtIssues(0), None);
    forall pages
      ensures !Run(w.s.AsClient(), w.cfg, None, pages)
    {
      FirstFails(w.s.AsClient(), w.cfg, pages);
    }
  }

  lemma SecondIsLong(w: Walk)
    requires w == Listing([CHANGED], [CHANGED], LONG)
    ensures w.Shape() && w.cfg.Selects() && Passable(w, AtIssues(0)) && Next(w, AtIssues(0)) == Some(AtIssues(1))
    ensures TextSize(w.CursorOf(AtIssues(1))) > LIMIT
    ensures Passes(w) && ChangelogComplete(w)
  {
    assert CONFIG.projects[0] in CONFIG.projects;
    PlainSize(LONG);
    hide EscapedUnits, Units;
    assert w.CursorOf(AtIssues(1)) == Issues(Some(LONG));
    assert w.Land(AtIssues(0)) == Some(AtIssues(0)) && w.Landed(AtIssues(0)) && w.Advance(AtIssues(0)) == Some(AtIssues(1));
    assert forall i :: 0 <= i < 2 ==> w.s.histories[i] == [CHANGED];
  }

  lemma FirstFails(client: Client, cfg: Config, pages: seq<Page>)
    requires Pull(client, cfg, None).Err?
    ensures !Run(client, cfg, None, pages)
  {
  }
}
