/** Which places a walk from the null cursor comes to, said by the sizes of the listing alone: pages start at
    multiples of the page size, and phases that have something left start at their beginning. */
module JiraVisited {
  import opened Wrappers
  import opened JiraCursorCodec
  import opened JiraPaging
  import opened JiraServer
  import opened JiraWalk

  predicate Multiple(n: nat, s: nat)
    requires s > 0
  {
    n == 0 || (n >= s && Multiple(n - s, s))
  }

  lemma {:induction false} StrideGap(n: nat, m: nat, s: nat)
    requires s > 0 && Multiple(n, s) && Multiple(m, s) && n < m
    ensures m >= n + s
  {
    if n > 0 {
      StrideGap(n - s, m - s, s);
    }
  }

  function IssueStride(w: Walk): (s: nat)
    requires w.Shape()
    ensures s > 0
  {
    Min(w.cfg.pageSize, w.s.width)
  }

  function SprintStride(w: Walk): (s: nat)
    requires w.Shape()
    ensures s > 0
  {
    Min(w.cfg.EntityPageSize(), w.s.sprintWidth)
  }

  /** The places the walk comes to unless something stops it before. */
  ghost predicate Visited(w: Walk, p: Place)
    requires w.Shape()
  {
    w.On(p) &&
    match p
    case AtIssues(k) => Multiple(k, IssueStride(w)) || k == w.N()
    case AtLinks(_) => true
    case InLinks(_, off) => Multiple(off, w.cfg.EntityPageSize())
    case AtLog(i) => i == 0 || w.s.histories[0] != []
    case InLog(i, _, off) => w.s.histories[0] != [] && Multiple(off, w.cfg.EntityPageSize())
    case AtSprints(_, start) => Multiple(start, SprintStride(w))
  }

  /** `q` is `p` or has less left to do. */
  ghost predicate NotBefore(w: Walk, p: Place, q: Place)
    requires w.Shape() && w.On(p) && w.On(q)
  {
    q == p || Less(w.Measure(q), w.Measure(p))
  }

  /** Every visited place behind `p` is `next` or comes after it. */
  ghost predicate NextVisited(w: Walk, p: Place, next: Option<Place>)
    requires w.Shape() && w.On(p)
  {
    && (next.Some? ==> Visited(w, next.value))
    && forall q :: Visited(w, q) && Less(w.Measure(q), w.Measure(p)) ==> next.Some? && NotBefore(w, next.value, q)
  }

  lemma IssuesNext(w: Walk, p: Place)
    requires w.Shape() && w.Landed(p) && Visited(w, p) && p.AtIssues?
    ensures NextVisited(w, p, w.Advance(p))
  {
    var s := IssueStride(w);
    assert Multiple(p.k + s, s);
    forall q | Visited(w, q) && Less(w.Measure(q), w.Measure(p))
      ensures w.Advance(p).Some? && w.On(w.Advance(p).value) && NotBefore(w, w.Advance(p).value, q)
    {
      if q.AtIssues? && Multiple(q.k, s) {
        StrideGap(p.k, q.k, s);
      }
      hide Multiple;
    }
    hide Multiple;
  }

  /** `q` is where the page at `p` leads to, or comes later. */
  ghost predicate NotSkipped(w: Walk, p: Place, q: Place)
    requires w.Shape() && w.Landed(p) && w.On(q)
  {
    w.Advance(p).Some? && w.On(w.Advance(p).value) && NotBefore(w, w.Advance(p).value, q)
  }

  lemma LinksWithin(w: Walk, p: Place, q: Place)
    requires w.Shape() && w.Landed(p) && Visited(w, p) && (p.AtLinks? || p.InLinks?)
    requires Visited(w, q) && Less(w.Measure(q), w.Measure(p)) && q.InLinks? && q.i == p.i
    ensures NotSkipped(w, p, q)
  {
    StrideGap(if p.AtLinks? then 0 else p.off, q.off, w.cfg.EntityPageSize());
    hide Multiple, Walk.LinksAt;
  }

  lemma LinksLater(w: Walk, p: Place, q: Place)
    requires w.Shape() && w.Landed(p) && (p.AtLinks? || p.InLinks?)
    requires w.On(q) && Less(w.Measure(q), w.Measure(p)) && !(q.InLinks? && q.i == p.i)
    ensures NotSkipped(w, p, q)
  {
    hide Walk.ItemsAt, Walk.SprintsAtBoard;
  }

  lemma LinksNext(w: Walk, p: Place)
    requires w.Shape() && w.Landed(p) && Visited(w, p) && (p.AtLinks? || p.InLinks?)
    ensures NextVisited(w, p, w.Advance(p))
  {
    assert w.Advance(p).Some? ==> Visited(w, w.Advance(p).value) by {
      var s, off := w.cfg.EntityPageSize(), if p.AtLinks? then 0 else p.off;
      assert Multiple(off + s, s);
      hide Walk.LinksAt;
    }
    hide Walk.Advance, Visited, Walk.Measure;
    forall q | Visited(w, q) && Less(w.Measure(q), w.Measure(p))
      ensures NotSkipped(w, p, q)
    {
      if q.InLinks? && q.i == p.i {
        LinksWithin(w, p, q);
      } else {
        LinksLater(w, p, q);
      }
    }
  }

  lemma LogWithin(w: Walk, p: Place, q: Place)
    requires w.Shape() && w.Landed(p) && Visited(w, p) && (p.AtLog? || p.InLog?)
    requires Visited(w, q) && Less(w.Measure(q), w.Measure(p)) && q.InLog? && q.i == p.i
    ensures NotSkipped(w, p, q)
  {
    var h, off := if p.AtLog? then 0 else p.h, if p.AtLog? then 0 else p.off;
    if q.h == h && h < |w.s.histories[p.i]| {
      StrideGap(off, q.off, w.cfg.EntityPageSize());
    }
    hide Multiple, Walk.ItemsAt;
  }

  lemma LogLater(w: Walk, p: Place, q: Place)
    requires w.Shape() && w.Landed(p) && (p.AtLog? || p.InLog?)
    requires w.On(q) && Less(w.Measure(q), w.Measure(p)) && (q.AtLog? || q.InLog?) && q.i != p.i
    requires w.s.histories[p.i] != []
    ensures NotSkipped(w, p, q)
  {
    hide Walk.ItemsAt;
  }

  lemma AfterLogVisits(w: Walk, p: Place)
    requires w.Shape() && w.Landed(p) && Visited(w, p) && (p.AtLog? || p.InLog?)
    ensures w.Advance(p).Some? ==> Visited(w, w.Advance(p).value)
    ensures w.s.histories[p.i] == [] ==> w.Advance(p) == w.SprintPlace() && w.s.histories[0] == []
    ensures w.Advance(p).Some? || !w.cfg.sprints
    ensures w.Advance(p).Some? && w.Advance(p).value.AtSprints? ==> w.Advance(p).value == AtSprints(0, 0)
    ensures w.Advance(p).Some? ==> !w.Advance(p).value.AtIssues? && !w.Advance(p).value.AtLinks? && !w.Advance(p).value.InLinks?
  {
    var off := if p.AtLog? then 0 else p.off;
    assert Multiple(off + w.cfg.EntityPageSize(), w.cfg.EntityPageSize());
    hide Walk.ItemsAt;
  }

  lemma LogsNext(w: Walk, p: Place)
    requires w.Shape() && w.Landed(p) && Visited(w, p) && (p.AtLog? || p.InLog?)
    ensures NextVisited(w, p, w.Advance(p))
  {
    AfterLogVisits(w, p);
    hide Walk.Advance;
    forall q | Visited(w, q) && Less(w.Measure(q), w.Measure(p))
      ensures NotSkipped(w, p, q)
    {
      hide Multiple, Walk.ItemsAt;
      if (q.AtLog? || q.InLog?) && w.s.histories[p.i] != [] {
        if q.i != p.i { LogLater(w, p, q); } else { LogWithin(w, p, q); }
      }
    }
  }

  lemma SprintsNext(w: Walk, p: Place)
    requires w.Shape() && w.Landed(p) && Visited(w, p) && p.AtSprints?
    ensures NextVisited(w, p, w.Advance(p))
  {
    var s := SprintStride(w);
    assert Multiple(p.start + s, s);
    forall q | Visited(w, q) && Less(w.Measure(q), w.Measure(p))
      ensures w.Advance(p).Some? && w.On(w.Advance(p).value) && NotBefore(w, w.Advance(p).value, q)
    {
      if q.AtSprints? && q.b == p.b {
        StrideGap(p.start, q.start, s);
      }
      hide Multiple;
    }
    hide Multiple;
  }

  /** The walk goes on from a visited place to the next visited place, leaving none out. */
  lemma AdvanceVisits(w: Walk, p: Place)
    requires w.Shape() && w.Landed(p) && Visited(w, p)
    ensures NextVisited(w, p, w.Advance(p))
  {
    match p
    case AtIssues(_) => IssuesNext(w, p);
    case AtLinks(_) => LinksNext(w, p);
    case InLinks(_, _) => LinksNext(w, p);
    case AtLog(_) => LogsNext(w, p);
    case InLog(_, _, _) => LogsNext(w, p);
    case AtSprints(_, _) => SprintsNext(w, p);
  }

  // ---------- cursors that can be written and read ----------

  /** The search at this place answers with a token the connector takes, and the place's cursor can be written and read. */
  ghost predicate Good(w: Walk, p: Place)
    requires w.Shape()
  {
    w.Hears(p) && Carries(w.CursorOf(p))
  }

  /** Every visited place from `p` on is good. */
  ghost predicate GoodFrom(w: Walk, p: Place)
    requires w.Shape() && w.On(p)
  {
    forall q :: Visited(w, q) && NotBefore(w, p, q) ==> Good(w, q)
  }

  lemma StartCarries(w: Walk)
    ensures Carries(w.CursorOf(AtIssues(0))) && Carries(w.CursorOf(AtLinks(0))) && Carries(w.CursorOf(AtLog(0)))
    ensures Carries(w.CursorOf(AtSprints(0, 0)))
  {
  }

  /** A visited place behind `p` that is good, or no earlier than where `p` lands. */
  ghost predicate PassedOver(w: Walk, p: Place, q: Place)
    requires w.Shape() && w.On(q)
  {
    Good(w, q) || (w.Land(p).Some? && w.On(w.Land(p).value) && NotBefore(w, w.Land(p).value, q))
  }

  lemma LandBehind(w: Walk, p: Place, q: Place)
    requires w.Shape() && Visited(w, p) && Visited(w, q) && Less(w.Measure(q), w.Measure(p))
    ensures PassedOver(w, p, q)
  {
    StartCarries(w);
    hide Multiple, Carries, Walk.LinksAt, Walk.ItemsAt;
    match q {
      case AtIssues(k) => assert w.Land(p) == Some(p);
      case AtLinks(i) => assert i == 0 || w.Land(p) == Some(p) || w.Land(p) == Some(AtLinks(0));
      case InLinks(_, _) => assert w.Land(p) == Some(p) || w.Land(p) == Some(AtLinks(0));
      case AtLog(i) => assert i == 0 || w.Land(p).Some?;
      case InLog(_, _, _) => assert w.Land(p).Some?;
      case AtSprints(_, _) => assert w.Land(p).Some?;
    }
  }

  /** What lies between a place and where it lands is good anyway. */
  lemma LandVisits(w: Walk, p: Place)
    requires w.Shape() && Visited(w, p)
    ensures w.Land(p).Some? ==> Visited(w, w.Land(p).value) && NotBefore(w, p, w.Land(p).value)
    ensures forall q :: Visited(w, q) && Less(w.Measure(q), w.Measure(p)) ==> PassedOver(w, p, q)
    ensures w.Land(p) != Some(p) ==> w.Hears(p)
    ensures w.Land(p).Some? && w.Land(p) != Some(p) ==> Carries(w.CursorOf(w.Land(p).value))
  {
    StartCarries(w);
    hide Carries, PassedOver;
    forall q | Visited(w, q) && Less(w.Measure(q), w.Measure(p))
      ensures PassedOver(w, p, q)
    {
      LandBehind(w, p, q);
    }
  }

  lemma NotBeforeTransitive(w: Walk, p: Place, q: Place, r: Place)
    requires w.Shape() && w.On(p) && w.On(q) && w.On(r) && NotBefore(w, p, q) && NotBefore(w, q, r)
    ensures NotBefore(w, p, r)
  {
    hide Walk.Measure;
  }

  /** From a place on everything is good exactly if it and its landing place are, and everything from the next place on. */
  lemma GoodSteps(w: Walk, p: Place, next: Option<Place>)
    requires w.Shape() && Visited(w, p) && (w.Land(p).Some? ==> w.Landed(w.Land(p).value))
    requires next == if w.Land(p).Some? then w.Advance(w.Land(p).value) else None
    ensures next.Some? ==> Visited(w, next.value)
    ensures GoodFrom(w, p)
      <==> Good(w, p) && (w.Land(p).Some? ==> Good(w, w.Land(p).value)) && (next.Some? ==> GoodFrom(w, next.value))
  {
    LandVisits(w, p);
    if w.Land(p).Some? {
      var l := w.Land(p).value;
      AdvanceVisits(w, l);
      AdvanceDecreases(w, l);
      hide Walk.Measure, Walk.Land, Walk.Advance, Good, Less, Walk.On, Walk.Landed, Visited;
      if next.Some? {
        forall q | Visited(w, q) && NotBefore(w, next.value, q)
          ensures NotBefore(w, p, q)
        {
          NotBeforeTransitive(w, l, next.value, q);
          NotBeforeTransitive(w, p, l, q);
        }
      }
    }
  }
}
