/** The boundary before project update invitations: a map of one-minute windows, one per subject, swept on every
    request. */
module RateLimiter {
  import opened Wrappers

  const WINDOW: int := 60_000
  const MAX_REQUESTS: nat := 60
  const MAX_WINDOWS: nat := 5000

  datatype Key = Key(customer: string, subject: string)

  datatype Window = Window(expiresAt: int, count: nat)

  /** A request let through by the limiter: whose, when, and when its window had been begun. */
  datatype Pass = Pass(key: Key, at: int, since: int)

  datatype Status = Next | Fail(code: nat)

  datatype Request = Request(bearer: bool, actor: Option<Key>, hasQuery: bool, originAllowed: bool, post: bool, contentAllowed: bool)

  // ---------- counting passes ----------

  function InWindow(ps: seq<Pass>, key: Key, s: int): nat {
    if ps == [] then 0
    else InWindow(ps[..|ps| - 1], key, s) + if ps[|ps| - 1].key == key && ps[|ps| - 1].since == s then 1 else 0
  }

  predicate Within(p: Pass, key: Key, t: int) { p.key == key && t <= p.at < t + WINDOW }

  /** The passes of a subject in the minute from t on. */
  function InMinute(ps: seq<Pass>, key: Key, t: int): nat {
    if ps == [] then 0 else InMinute(ps[..|ps| - 1], key, t) + if Within(ps[|ps| - 1], key, t) then 1 else 0
  }

  /** Each window holds its passes, at most sixty, and a subject's windows do not overlap. */
  ghost predicate Orderly(ps: seq<Pass>) {
    && (forall p :: p in ps ==> p.since <= p.at < p.since + WINDOW)
    && (forall key, s :: InWindow(ps, key, s) <= MAX_REQUESTS)
    && (forall p, q :: p in ps && q in ps && p.key == q.key ==>
          p.since == q.since || p.since + WINDOW <= q.since || q.since + WINDOW <= p.since)
  }

  lemma {:induction false} TwoWindows(ps: seq<Pass>, key: Key, t: int, a: int, b: int)
    requires forall p :: p in ps && Within(p, key, t) ==> p.since == a || p.since == b
    ensures InMinute(ps, key, t) <= InWindow(ps, key, a) + InWindow(ps, key, b)
  {
    if ps != [] {
      TwoWindows(ps[..|ps| - 1], key, t, a, b);
      assert ps[|ps| - 1] in ps;
    }
  }

  /** In any minute a subject passes at most a hundred and twenty times. */
  lemma AtMostTwiceTheLimit(ps: seq<Pass>, key: Key, t: int)
    requires Orderly(ps)
    ensures InMinute(ps, key, t) <= 2 * MAX_REQUESTS
  {
    if p :| p in ps && Within(p, key, t) {
      if q :| q in ps && Within(q, key, t) && q.since != p.since {
        forall r | r in ps && Within(r, key, t)
          ensures r.since == p.since || r.since == q.since
        {
        }
        TwoWindows(ps, key, t, p.since, q.since);
      } else {
        TwoWindows(ps, key, t, p.since, p.since);
      }
    } else {
      TwoWindows(ps, key, t, 0, 0);
    }
  }

  lemma InWindowMore(ps: seq<Pass>, p: Pass, key: Key, s: int)
    ensures InWindow(ps + [p], key, s) == InWindow(ps, key, s) + if p.key == key && p.since == s then 1 else 0
  {
    assert (ps + [p])[..|ps|] == ps;
  }

  lemma {:induction false} NoneInWindow(ps: seq<Pass>, key: Key, s: int)
    requires forall p :: p in ps && p.key == key ==> p.since != s
    ensures InWindow(ps, key, s) == 0
  {
    if ps != [] {
      NoneInWindow(ps[..|ps| - 1], key, s);
      assert ps[|ps| - 1] in ps;
    }
  }

  function Kept(windows: map<Key, Window>, now: int): map<Key, Window> {
    map k | k in windows && windows[k].expiresAt > now :: windows[k]
  }

  /** The open window of a subject counts its passes, and all its other windows are over. */
  ghost predicate Tracks(windows: map<Key, Window>, passes: seq<Pass>, last: Option<int>, key: Key) {
    if key in windows then
      var since := windows[key].expiresAt - WINDOW;
      && InWindow(passes, key, since) == Min(windows[key].count, MAX_REQUESTS)
      && (forall p :: p in passes && p.key == key ==> p.since == since || p.since + WINDOW <= since)
      && last.Some? && since <= last.value
    else
      forall p :: p in passes && p.key == key ==> last.Some? && p.since + WINDOW <= last.value
  }

  lemma OrderlyMore(ps: seq<Pass>, p: Pass)
    requires Orderly(ps) && p.since <= p.at < p.since + WINDOW && InWindow(ps, p.key, p.since) < MAX_REQUESTS
    requires forall q :: q in ps && q.key == p.key ==> q.since == p.since || q.since + WINDOW <= p.since
    ensures Orderly(ps + [p])
  {
    assert forall q :: q in ps + [p] <==> q in ps || q == p;
    forall key, s
      ensures InWindow(ps + [p], key, s) <= MAX_REQUESTS
    {
      InWindowMore(ps, p, key, s);
    }
  }

  /** Counting one more request keeps the map and the passes in step. */
  lemma TracksMore(windows: map<Key, Window>, ps: seq<Pass>, now: int, key: Key, w: Window, p: Pass, k: Key)
    requires Tracks(windows, ps, Some(now), k) && Tracks(windows, ps, Some(now), key)
    requires p == Pass(key, now, w.expiresAt - WINDOW)
    requires if key in windows then w == Window(windows[key].expiresAt, windows[key].count + 1) else w == Window(now + WINDOW, 1)
    ensures Tracks(windows[key := w], if w.count <= MAX_REQUESTS then ps + [p] else ps, Some(now), k)
  {
    assert forall q :: q in ps + [p] <==> q in ps || q == p;
    InWindowMore(ps, p, k, if k in windows[key := w] then windows[key := w][k].expiresAt - WINDOW else 0);
    if key !in windows && k == key {
      NoneInWindow(ps, key, now);
    }
  }

  class Boundary {
    var windows: map<Key, Window>

    /** The passes so far, the last time seen, and whether time has never gone back. */
    ghost var passes: seq<Pass>
    ghost var last: Option<int>
    ghost var steady: bool

    ghost predicate Valid()
      reads this
    {
      && |windows| <= MAX_WINDOWS
      && (steady ==> Orderly(passes) && forall key :: Tracks(windows, passes, last, key))
    }

    constructor ()
      ensures Valid() && windows == map[] && passes == [] && steady
    {
      windows, passes, last, steady := map[], [], None, true;
    }

    /** Drops the windows that are over. */
    method Sweep(now: int)
      modifies this`windows
      ensures windows == Kept(old(windows), now) && |windows| <= |old(windows)|
    {
      var rest := windows.Keys;
      while rest != {}
        invariant rest <= old(windows).Keys
        invariant windows.Keys <= old(windows).Keys
        invariant forall k :: k in old(windows) && (k in rest || old(windows)[k].expiresAt > now) ==> k in windows && windows[k] == old(windows)[k]
        invariant forall k :: k in windows ==> k in rest || old(windows)[k].expiresAt > now
        decreases rest
      {
        var key :| key in rest;
        rest := rest - {key};
        if windows[key].expiresAt <= now {
          windows := windows - {key};
        }
      }
      FewerKeys(windows, old(windows));
    }

    /** After a sweep the windows that are left are exactly the ones still open. */
    method SweepAt(now: int)
      requires Valid()
      modifies this`windows, this`last, this`steady
      ensures Valid() && windows == Kept(old(windows), now) && last == Some(now)
      ensures steady == (old(steady) && (old(last).None? || old(last).value <= now))
    {
      ghost var before, was := windows, last;
      Sweep(now);
      steady := steady && (last.None? || last.value <= now);
      last := Some(now);
      if steady {
        forall key: Key
          ensures Tracks(windows, passes, last, key)
        {
          assert Tracks(before, passes, was, key);
          if key in before && key !in windows {
            assert before[key].expiresAt <= now;
          }
        }
      }
    }

    /** Counts a request, in the subject's open window or in a new one if there is room. */
    method Admit(key: Key, now: int) returns (passed: bool)
      requires Valid() && last == Some(now) && forall k :: k in windows ==> windows[k].expiresAt > now
      modifies this`windows, this`passes
      ensures Valid()
      ensures passed == (if key in old(windows) then old(windows)[key].count < MAX_REQUESTS else |old(windows)| < MAX_WINDOWS)
      ensures key !in old(windows) && !passed ==> windows == old(windows)
      ensures key in old(windows) || passed ==>
                windows == old(windows)[key := if key in old(windows) then Window(old(windows)[key].expiresAt, old(windows)[key].count + 1)
                                               else Window(now + WINDOW, 1)]
      ensures passes == if passed then old(passes) + [Pass(key, now, windows[key].expiresAt - WINDOW)] else old(passes)
    {
      ghost var before := windows;
      if key !in windows {
        if |windows| >= MAX_WINDOWS { return false; }
        windows := windows[key := Window(now + WINDOW, 0)];
      }
      windows := windows[key := Window(windows[key].expiresAt, windows[key].count + 1)];
      passed := windows[key].count <= MAX_REQUESTS;
      ghost var w, p := windows[key], Pass(key, now, windows[key].expiresAt - WINDOW);
      assert windows == before[key := w];
      ghost var later := if passed then passes + [p] else passes;
      if steady {
        assert Tracks(before, passes, last, key);
        if passed {
          if key !in before { NoneInWindow(passes, key, now); }
          OrderlyMore(passes, p);
        }
        forall k: Key
          ensures Tracks(windows, later, last, k)
        {
          TracksMore(before, passes, now, key, w, p, k);
        }
      }
      passes := later;
    }

    /** While time does not go back, no subject passes more than sixty times in one window, nor more than a hundred and
        twenty times in any minute. */
    lemma LimitsHold(key: Key, t: int)
      requires Valid() && steady
      ensures InWindow(passes, key, t) <= MAX_REQUESTS && InMinute(passes, key, t) <= 2 * MAX_REQUESTS
    {
      AtMostTwiceTheLimit(passes, key, t);
    }

    /** The whole boundary, in the order of its checks. */
    method Handle(r: Request, now: int) returns (s: Status)
      requires Valid()
      modifies this
      ensures Valid()
      ensures !r.bearer || r.actor.None? ==> s == Fail(401) && unchanged(this)
      ensures s == Next ==> |passes| == |old(passes)| + 1 && passes[|passes| - 1].key == r.actor.value && passes[|passes| - 1].at == now
      ensures s == Next ==> !r.hasQuery && r.originAllowed && (r.post ==> r.contentAllowed)
      ensures r.bearer && r.actor.Some? ==> (s == Fail(429) <==> passes == old(passes))
    {
      if !r.bearer || r.actor.None? { return Fail(401); }
      SweepAt(now);
      var passed := Admit(r.actor.value, now);
      if !passed { return Fail(429); }
      if r.hasQuery { return Fail(400); }
      if !r.originAllowed { return Fail(403); }
      if r.post && !r.contentAllowed { return Fail(415); }
      s := Next;
    }
  }

  lemma FewerKeys(a: map<Key, Window>, b: map<Key, Window>)
    requires a.Keys <= b.Keys
    ensures |a| <= |b|
  {
    var rest := b.Keys - a.Keys;
    assert b.Keys == a.Keys + rest;
    assert |b.Keys| == |a.Keys| + |rest|;
  }
}
