/** The simpler driver behind the project queue: a dirty flag instead of generations, and a refresh every half minute. */
module PmQueueResource {
  import opened Wrappers
  import opened ViewTrace

  /** How far the continuations of a read have come. */
  datatype Stage = Waiting | Reading | Settling

  class Resource {
    var live: bool
    var pending: bool
    var dirty: bool
    var timedOut: bool
    var aborted: bool
    var timer: bool
    var deadline: bool
    var stage: Stage

    /** The last thing shown, whether a refresh has ever been asked for, and everything that has happened. */
    ghost var shown: Option<Shown>
    ghost var log: seq<Event>
    ghost var trace: Trace

    ghost predicate Traced()
      reads this
    {
      && Replay(log) == Some(trace)
      && trace.live == live
      && (pending <==> trace.flight.Outstanding?)
      && (pending ==>
            && (trace.flight.stale <==> dirty || timedOut || !live)
            && (stage.Waiting? <==> !trace.flight.called))
    }

    ghost predicate Valid()
      reads this
    {
      && Traced()
      && (live && dirty ==> pending)
      && (deadline ==> pending)
      // between reads the next refresh is always scheduled, and only then
      && (live && shown.Some? ==> (timer <==> !pending))
      && (live && timer ==> !pending)
      && (live && shown.None? ==> !pending && !timer)
      // loading is never stuck
      && (live && shown == Some(Loading) ==> pending && !timedOut && (dirty || !stage.Settling?))
      && (live && pending && timedOut ==> shown == Some(Failed))
      && (live && pending && !timedOut ==> deadline && (dirty || !stage.Settling? ==> shown == Some(Loading)))
    }

    constructor ()
      ensures Valid() && live && !pending && shown.None? && log == []
    {
      live, pending, dirty, timedOut, aborted, timer, deadline := true, false, false, false, false, false, false;
      stage, shown, log, trace := Settling, None, [], START;
    }

    ghost method Note(e: Event)
      requires Replay(log) == Some(trace) && Step(trace, e).Some?
      modifies this`log, this`trace, this`shown
      ensures log == old(log) + [e] && Step(old(trace), e) == Some(trace) && Replay(log) == Some(trace)
      ensures shown == if e.Published? then Some(e.shown) else old(shown)
    {
      ReplayMore(log, e);
      log, trace := log + [e], Step(trace, e).value;
      if e.Published? { shown := Some(e.shown); }
    }

    method Schedule()
      modifies this`timer
      ensures timer == live
    {
      timer := false;
      if live { timer := true; }
    }

    /** Asks for a fresh read: now, or once more after the read in flight; after a read that timed out and has not
        settled the view fails instead. */
    method Refresh()
      requires Traced() && (pending || !live ==> Valid())
      modifies this
      ensures Valid() && live == old(live)
      ensures !old(live) ==> unchanged(this)
      ensures old(live) ==>
                if old(pending) && old(timedOut) then
                  log == old(log) + [Published(Failed)] && pending && dirty == old(dirty) && stage == old(stage)
                else if old(pending) then
                  log == old(log) + [Invalidated, Published(Loading)] && dirty && pending && stage == old(stage)
                else
                  log == old(log) + [Started, Published(Loading)] && pending && !dirty && stage == Waiting && !aborted
    {
      hide Replay;
      if !live { return; }
      timer := false;
      if pending && timedOut {
        Note(Published(Failed));
        return;
      }
      if pending {
        Note(Invalidated);
        Note(Published(Loading));
        dirty := true;
        return;
      }
      pending, dirty, timedOut, stage := true, false, false, Waiting;
      aborted := false;
      Note(Started);
      Note(Published(Loading));
      deadline := true;
    }

    method TimerFires(visible: bool)
      requires Valid() && live && timer
      modifies this
      ensures Valid()
      ensures if visible then pending && log == old(log) + [Started, Published(Loading)] else !pending && log == old(log)
    {
      hide Replay;
      if visible { Refresh(); } else { Schedule(); }
    }

    method Deadline()
      requires Valid() && deadline
      modifies this
      ensures Valid() && timedOut && aborted && !deadline && pending
      ensures log == old(log) + if live then [Invalidated, Published(Failed)] else [Invalidated]
    {
      hide Replay;
      deadline, timedOut, aborted := false, true, true;
      Note(Invalidated);
      if live { Note(Published(Failed)); }
    }

    /** The first continuation issues the read, even one that has been aborted. */
    method Start()
      requires Valid() && pending && stage.Waiting?
      modifies this
      ensures Valid() && pending && stage == Reading && log == old(log) + [Called]
      ensures dirty == old(dirty) && timedOut == old(timedOut)
    {
      hide Replay;
      Note(Called);
      stage := Reading;
    }

    /** The read settles. What it brought, or its failure, is shown only if no refresh came meanwhile and it was in time. */
    method Settled(success: bool)
      requires Valid() && pending && stage.Reading?
      modifies this
      ensures Valid() && pending && stage == Settling && dirty == old(dirty) && timedOut == old(timedOut)
      ensures log == old(log) + if live && !dirty && !timedOut then [Published(if success then Ready else Failed)] else []
    {
      hide Replay;
      if live && !dirty && !timedOut {
        Note(Published(if success then Ready else Failed));
      }
      stage := Settling;
    }

    /** The read is over: a refresh that came meanwhile is read now, otherwise the next one is scheduled. */
    method Finally()
      requires Valid() && pending && stage.Settling?
      modifies this
      ensures Valid() && live == old(live) && dirty == (!live && old(dirty))
      ensures if live && old(dirty) && !old(timedOut) then
                pending && log == old(log) + [Ended, Started, Published(Loading)]
              else !pending && log == old(log) + [Ended] && (live ==> timer)
    {
      hide Replay;
      Note(Ended);
      deadline, pending := false, false;
      if !live { return; }
      if dirty && !timedOut {
        Refresh();
      } else {
        dirty := false;
        Schedule();
      }
    }

    method Dispose()
      requires Valid()
      modifies this
      ensures Valid() && !live && !timer && !deadline && log == old(log) + [Disposed]
      ensures pending == old(pending) && (pending ==> aborted)
    {
      hide Replay;
      live, timer, deadline := false, false, false;
      aborted := aborted || pending;
      Note(Disposed);
    }

    /** While the view shows loading, a read is in flight that will be shown, guarded by its deadline, or a refresh is
        queued behind it; and whenever nothing is being read the next refresh is scheduled. */
    lemma NeverStuck()
      requires Valid()
      ensures live && shown == Some(Loading) ==>
                && pending && deadline && trace.flight.Outstanding?
                && (dirty <==> trace.flight.stale) && (!dirty ==> !stage.Settling?)
      ensures live && shown.Some? ==> (timer <==> !pending)
      ensures live && pending && timedOut ==> shown == Some(Failed)
    {
    }
  }
}
