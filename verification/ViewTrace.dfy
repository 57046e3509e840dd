/** What any view driver may do, as an automaton over the events it causes: one read at a time, the latest request
    wins, and silence after disposal. Both drivers are shown to stay inside it. */
module ViewTrace {
  import opened Wrappers

  datatype Shown = Idle | Loading | Ready | Failed

  datatype Event =
    | Started               // a read is set up
    | Called                // the read is issued
    | Invalidated           // whatever is being read is no longer wanted
    | Published(shown: Shown)
    | Ended                 // the read has settled
    | Disposed

  /** The read in flight, and whether it has been invalidated since it was set up. */
  datatype Flight = NoRead | Outstanding(called: bool, stale: bool)

  datatype Trace = Trace(live: bool, flight: Flight)

  const START := Trace(true, NoRead)

  ghost function Step(t: Trace, e: Event): Option<Trace> {
    match e
    case Started => if t.live && t.flight.NoRead? then Some(t.(flight := Outstanding(false, false))) else None
    case Called => if t.flight.Outstanding? && !t.flight.called then Some(t.(flight := t.flight.(called := true))) else None
    case Invalidated => Some(if t.flight.Outstanding? then t.(flight := t.flight.(stale := true)) else t)
    case Published(shown) =>
      if t.live && (shown.Ready? ==> t.flight == Outstanding(true, false)) then Some(t) else None
    case Ended => if t.flight.Outstanding? then Some(t.(flight := NoRead)) else None
    case Disposed => Some(Trace(false, if t.flight.Outstanding? then t.flight.(stale := true) else NoRead))
  }

  ghost function Replay(log: seq<Event>): Option<Trace> {
    if log == [] then Some(START)
    else
      var t := Replay(log[..|log| - 1]);
      if t.None? then None else Step(t.value, log[|log| - 1])
  }

  lemma ReplayMore(log: seq<Event>, e: Event)
    requires Replay(log).Some?
    ensures Replay(log + [e]) == Step(Replay(log).value, e)
  {
    assert (log + [e])[..|log|] == log;
  }

  lemma {:induction false} ReplayPrefix(log: seq<Event>, n: nat)
    requires Replay(log).Some? && n <= |log|
    ensures Replay(log[..n]).Some?
  {
    if n == |log| {
      assert log[..n] == log;
    } else {
      ReplayPrefix(log[..|log| - 1], n);
      assert log[..|log| - 1][..n] == log[..n];
    }
  }

  lemma PrefixOf(log: seq<Event>, n: nat)
    requires Replay(log).Some? && n < |log|
    ensures Replay(log[..n]).Some? && Step(Replay(log[..n]).value, log[n]).Some?
  {
    ReplayPrefix(log, n + 1);
    assert log[..n + 1][..n] == log[..n];
  }

  lemma {:induction false} InFlight(log: seq<Event>, i: nat)
    requires Replay(log).Some? && i < |log| && log[i].Started?
    ensures Replay(log).value.flight.Outstanding? || exists k :: i < k < |log| && log[k].Ended?
  {
    var n := |log| - 1;
    if i < n && !log[n].Ended? {
      assert log[..n][i] == log[i];
      InFlight(log[..n], i);
      if !Replay(log[..n]).value.flight.Outstanding? {
        var k :| i < k < n && log[..n][k].Ended?;
        assert log[k].Ended?;
      }
    }
  }

  /** Reads do not overlap: one ends before the next is set up. */
  lemma SingleFlight(log: seq<Event>, i: nat, j: nat)
    requires Replay(log).Some? && i < j < |log| && log[i].Started? && log[j].Started?
    ensures exists k :: i < k < j && log[k].Ended?
  {
    PrefixOf(log, j);
    assert log[..j][i] == log[i];
    InFlight(log[..j], i);
    var k :| i < k < j && log[..j][k].Ended?;
    assert log[k].Ended?;
  }

  /** A read set up at s is being read at the end, and nothing has invalidated it. */
  ghost predicate Wanted(log: seq<Event>, s: nat) {
    && s < |log| && log[s].Started?
    && forall k :: s < k < |log| ==> log[k].Called? || log[k].Published?
  }

  lemma {:induction false} FreshIsWanted(log: seq<Event>)
    requires Replay(log).Some? && Replay(log).value.flight.Outstanding? && !Replay(log).value.flight.stale
    ensures exists s: nat :: Wanted(log, s)
  {
    var n := |log| - 1;
    if log[n].Started? {
      assert Wanted(log, n);
    } else {
      FreshIsWanted(log[..n]);
      var s: nat :| Wanted(log[..n], s);
      forall k | s < k < |log|
        ensures log[k].Called? || log[k].Published?
      {
        assert k < n ==> log[..n][k] == log[k];
      }
      assert Wanted(log, s);
    }
  }

  /** The latest request wins: what is shown as ready was read after the last time anything was invalidated. */
  lemma LatestWins(log: seq<Event>, j: nat)
    requires Replay(log).Some? && j < |log| && log[j] == Published(Ready)
    ensures exists s: nat :: s < j && log[s].Started? && forall k :: s < k < j ==> log[k].Called? || log[k].Published?
  {
    PrefixOf(log, j);
    FreshIsWanted(log[..j]);
    var s: nat :| Wanted(log[..j], s);
    assert log[..j][s] == log[s];
    forall k | s < k < j
      ensures log[k].Called? || log[k].Published?
    {
      assert log[..j][k] == log[k];
    }
  }

  lemma {:induction false} DisposedForGood(log: seq<Event>, i: nat)
    requires Replay(log).Some? && i < |log| && log[i].Disposed?
    ensures !Replay(log).value.live
  {
    var n := |log| - 1;
    if i < n {
      assert log[..n][i] == log[i];
      DisposedForGood(log[..n], i);
    }
  }

  /** After disposal nothing is shown and nothing is set up. */
  lemma SilentAfterDisposal(log: seq<Event>, i: nat, j: nat)
    requires Replay(log).Some? && i < j < |log| && log[i].Disposed?
    ensures !log[j].Published? && !log[j].Started?
  {
    PrefixOf(log, j);
    assert log[..j][i] == log[i];
    DisposedForGood(log[..j], i);
  }
}
