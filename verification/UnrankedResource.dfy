/** The driver behind the unranked milestone view. Every method is one turn of the event loop: a call by the owner, a
    timer, or one continuation of the read in flight. */
module UnrankedResource {
  import opened Wrappers
  import opened ViewTrace
  import opened UnrankedFreshness

  const MAX_DELAY: real := 2147483647.0

  /** A report: its instant, the expiries of its supports in order, and what is shown of it. */
  datatype Observation = Observation(asOf: Instant, validUntil: seq<Instant>, content: nat)

  datatype View = IdleView | LoadingView | FailedView | ReadyView(data: Observation) {
    function Shown(): Shown {
      match this
      case IdleView => Idle
      case LoadingView => Loading
      case FailedView => Failed
      case ReadyView(_) => Ready
    }
  }

  /** How far the continuations of a read have come. */
  datatype Stage = Waiting | Reading | Failing | Settling

  datatype Pending = Pending(signal: nat, token: nat, clock: FreshnessClock, aborted: bool, timedOut: bool,
                             unavailable: bool, stage: Stage)

  datatype Clocks = Clocks(wall: Reading, monotonic: Reading)

  class Resource {
    var live: bool
    var visible: bool
    var requested: bool
    var queued: bool
    var generation: nat
    var readCount: nat
    var view: View
    var pending: Option<Pending>
    var expiryTimer: Option<real>
    var freshness: FreshnessClock?
    var hiddenFreshness: FreshnessClock?

    ghost var clocks: set<FreshnessClock>
    ghost var log: seq<Event>
    ghost var trace: Trace

    ghost predicate ClocksSound()
      reads this`clocks, clocks
    {
      forall c :: c in clocks ==> c.Sound()
    }

    /** Every clock is sound; those that guard a view are bound, the one of an unsettled read is not. */
    ghost predicate Clocked()
      reads this, clocks
    {
      && ClocksSound()
      && (freshness != null ==> freshness in clocks && freshness.bound)
      && (hiddenFreshness != null ==> hiddenFreshness in clocks && hiddenFreshness.bound)
      && (pending.Some? ==> pending.value.clock in clocks
                            && (!pending.value.stage.Settling? ==> !pending.value.clock.bound))
    }

    /** The read in flight is current exactly while its token is the generation. */
    ghost predicate Traced()
      reads this
    {
      && Replay(log) == Some(trace)
      && trace.live == live
      && (pending.None? <==> trace.flight.NoRead?)
      && (pending.Some? ==>
            && pending.value.token <= generation
            && (trace.flight.stale <==> pending.value.token < generation)
            && (pending.value.stage.Waiting? ==> !trace.flight.called)
            && (pending.value.stage.Reading? ==> trace.flight.called)
            && (pending.value.aborted || pending.value.timedOut || pending.value.unavailable ==> pending.value.token < generation))
    }

    /** What is shown is honest: loading is never stuck, and a report stands under the guard bound to it. */
    ghost predicate Honest()
      reads this, freshness
    {
      && (view.LoadingView? <==> queued || Awaited())
      && (queued ==> pending.Some? && pending.value.token < generation)
      && (view.LoadingView? ==>
            live && visible && requested && pending.Some? && !pending.value.timedOut && !pending.value.unavailable)
      && (view.ReadyView? ==>
            && live && visible && requested && freshness != null
            && freshness.asOf == view.data.asOf && freshness.validUntil == view.data.validUntil)
      && (!live || !visible ==> view.IdleView?)
    }

    /** An unsettled read is the one last asked for. */
    predicate Awaited()
      reads this
    {
      pending.Some? && pending.value.token == generation && !pending.value.stage.Settling?
    }

    ghost predicate Core()
      reads this, clocks, freshness
    {
      Clocked() && Traced() && Honest()
    }

    /** The invariant of the driver: a shown report also has its expiry timer running. */
    ghost predicate Valid()
      reads this, clocks, freshness
    {
      Core() && (view.ReadyView? ==> expiryTimer.Some?)
    }

    constructor ()
      ensures Valid() && live && visible && view == IdleView && pending.None? && log == [] && clocks == {}
    {
      live, visible, requested, queued, generation, readCount := true, true, false, false, 0, 0;
      view, pending, expiryTimer, freshness, hiddenFreshness := IdleView, None, None, null, null;
      clocks, log, trace := {}, [], START;
    }

    method Publish(next: View)
      requires Replay(log) == Some(trace) && trace.live == live
      requires next.ReadyView? ==> trace.flight == Outstanding(true, false)
      modifies this`view, this`log
      ensures view == next && Replay(log) == Some(trace)
      ensures log == if live then old(log) + [Published(next.Shown())] else old(log)
    {
      ReplayMore(log, Published(next.Shown()));
      view := next;
      if live { log := log + [Published(next.Shown())]; }
    }

    method ClearExpiry()
      modifies this`expiryTimer, this`freshness
      ensures expiryTimer.None? && freshness == null
    {
      expiryTimer, freshness := None, null;
    }

    ghost method Note(e: Event)
      requires Replay(log) == Some(trace) && Step(trace, e).Some?
      modifies this`log, this`trace
      ensures log == old(log) + [e] && Step(old(trace), e) == Some(trace) && Replay(log) == Some(trace)
    {
      ReplayMore(log, e);
      log, trace := log + [e], Step(trace, e).value;
    }

    /** The report is no longer valid: the view fails, and nothing is asked for again by itself. */
    method Expire()
      requires Clocked() && Traced() && live && visible && !queued && !Awaited()
      modifies this`requested, this`hiddenFreshness, this`expiryTimer, this`freshness, this`view, this`log
      ensures Valid() && view == FailedView && !requested && log == old(log) + [Published(Failed)]
      ensures hiddenFreshness == null
    {
      hide ClocksSound, Replay, Step, FreshnessClock.Sound, FreshnessClock.InTime;
      requested, hiddenFreshness := false, null;
      ClearExpiry();
      Publish(FailedView);
    }

    /** Whatever is being read, shown or about to expire is no longer wanted. */
    method Invalidate()
      requires Clocked() && Traced()
      modifies this`generation, this`expiryTimer, this`freshness, this`log, this`trace
      ensures Clocked() && Traced() && generation == old(generation) + 1
      ensures pending.Some? ==> pending.value.token < generation
      ensures expiryTimer.None? && freshness == null && log == old(log) + [Invalidated]
    {
      hide ClocksSound, Replay, FreshnessClock.Sound;
      generation := generation + 1;
      Note(Invalidated);
      ClearExpiry();
    }

    /** Starts the expiry timer of a shown report, or lets the report expire. */
    method ScheduleExpiry(now: Clocks)
      requires Core()
      modifies this, freshness
      ensures Valid() && clocks == old(clocks)
      ensures live == old(live) && visible == old(visible) && pending == old(pending) && generation == old(generation)
      ensures if !old(view).ReadyView? then unchanged(this)
              else if view.ReadyView? then
                && view == old(view) && freshness == old(freshness) && freshness.InTime(now.wall, now.monotonic)
                && 0.0 < expiryTimer.value <= MAX_DELAY && log == old(log) && requested == old(requested)
                && queued == old(queued)
              else view == FailedView && !requested && log == old(log) + [Published(Failed)]
    {
      hide Replay, Step, FreshnessClock.Sound, FreshnessClock.InTime;
      if !live || !visible || freshness == null || !view.ReadyView? { return; }
      var left := freshness.Remaining(now.wall, now.monotonic);
      if left <= 0.0 {
        Expire();
        return;
      }
      expiryTimer := Some(if left <= MAX_DELAY then left else MAX_DELAY);
    }

    /** Sets up a read, unless the driver is disposed, hidden or reading already. */
    method Begin(now: Clocks)
      requires Clocked() && Traced()
      modifies this`pending, this`readCount, this`clocks, this`log, this`trace
      ensures Clocked() && Traced()
      ensures if !live || !visible || old(pending).Some? then
                pending == old(pending) && log == old(log) && clocks == old(clocks) && readCount == old(readCount)
              else
                && pending.Some? && fresh(pending.value.clock) && readCount == old(readCount) + 1
                && pending == Some(Pending(readCount, generation, pending.value.clock, false, false, false, Waiting))
                && clocks == old(clocks) + {pending.value.clock} && log == old(log) + [Started]
    {
      hide Replay, FreshnessClock.Sound;
      if !live || !visible || pending.Some? { return; }
      var clock := new FreshnessClock(now.wall, now.monotonic);
      readCount := readCount + 1;
      pending := Some(Pending(readCount, generation, clock, false, false, false, Waiting));
      clocks := clocks + {clock};
      Note(Started);
    }

    // ---------- the continuations of a read ----------

    function Wanted(): bool
      requires pending.Some?
      reads this
    {
      live && visible && !pending.value.timedOut && pending.value.token == generation
    }

    /** The first continuation issues the read, unless it is no longer wanted. */
    method Start()
      requires Valid() && pending.Some? && pending.value.stage.Waiting?
      modifies this`pending, this`log, this`trace
      ensures Valid()
      ensures var go := old(Wanted() && !pending.value.aborted);
              && pending == Some(old(pending).value.(stage := if go then Reading else Failing))
              && log == old(log) + (if go then [Called] else [])
    {
      hide ClocksSound, Replay, FreshnessClock.Sound;
      if !live || !visible || pending.value.token != generation || pending.value.aborted {
        pending := Some(pending.value.(stage := Failing));
      } else {
        Note(Called);
        pending := Some(pending.value.(stage := Reading));
      }
    }

    /** The read brings a report. A report that is still wanted and not past its validity is shown; one that is past it
        fails; one that is no longer wanted changes nothing. */
    method Value(data: Observation, now: Clocks, later: Clocks)
      requires Valid() && pending.Some? && pending.value.stage.Reading?
      modifies this, clocks
      ensures Valid() && clocks == old(clocks)
      ensures pending == Some(old(pending).value.(stage := Settling)) && generation == old(generation)
      ensures live == old(live) && visible == old(visible)
      ensures !old(Wanted()) ==> view == old(view) && log == old(log) && requested == old(requested) && queued == old(queued)
      ensures old(Wanted()) ==>
                if view.ReadyView? then
                  && view == ReadyView(data) && log == old(log) + [Published(Ready)]
                  && freshness == old(pending).value.clock && freshness.InTime(later.wall, later.monotonic)
                else view == FailedView && !requested && (log == old(log) + [Published(Failed)]
                                                         || log == old(log) + [Published(Ready), Published(Failed)])
    {
      hide Replay, Step, FreshnessClock.Sound, FreshnessClock.InTime;
      var active := pending.value;
      if !live || !visible || active.timedOut || active.token != generation {
        pending := Some(active.(stage := Settling));
        return;
      }
      active.clock.Bind(data.asOf, data.validUntil);
      pending := Some(active.(stage := Settling));
      var left := active.clock.Remaining(now.wall, now.monotonic);
      if left <= 0.0 {
        Expire();
        return;
      }
      Show(data, later);
    }

    /** Shows a report under the clock that has just been bound to it. */
    method Show(data: Observation, now: Clocks)
      requires Clocked() && Traced() && live && visible && requested && !queued && pending.Some?
      requires pending.value.stage.Settling? && trace.flight == Outstanding(true, false)
      requires var c := pending.value.clock; c.bound && c.asOf == data.asOf && c.validUntil == data.validUntil
      modifies this, pending.value.clock
      ensures Valid() && clocks == old(clocks) && pending == old(pending) && generation == old(generation)
      ensures live == old(live) && visible == old(visible)
      ensures if view.ReadyView? then
                && view == ReadyView(data) && log == old(log) + [Published(Ready)]
                && freshness == pending.value.clock && freshness.InTime(now.wall, now.monotonic)
              else view == FailedView && !requested && log == old(log) + [Published(Ready), Published(Failed)]
    {
      hide Replay, Step, FreshnessClock.Sound, FreshnessClock.InTime;
      freshness := pending.value.clock;
      Publish(ReadyView(data));
      ScheduleExpiry(now);
    }

    /** The read is refused, or what it brought cannot be used. */
    method Rejected()
      requires Valid() && pending.Some? && pending.value.stage.Reading?
      modifies this`pending
      ensures Valid() && pending == Some(old(pending).value.(stage := Failing))
    {
      hide ClocksSound, Replay, Step, FreshnessClock.Sound, FreshnessClock.InTime;
      pending := Some(pending.value.(stage := Failing));
    }

    /** A failure of a read that is still wanted is shown. */
    method Catch()
      requires Valid() && pending.Some? && pending.value.stage.Failing?
      modifies this`pending, this`requested, this`view, this`log
      ensures Valid() && pending == Some(old(pending).value.(stage := Settling))
      ensures if old(Wanted()) then view == FailedView && !requested && log == old(log) + [Published(Failed)]
              else view == old(view) && requested == old(requested) && log == old(log)
    {
      hide ClocksSound, Replay, Step, FreshnessClock.Sound, FreshnessClock.InTime;
      var wanted := live && visible && !pending.value.timedOut && pending.value.token == generation;
      pending := Some(pending.value.(stage := Settling));
      if wanted {
        requested := false;
        Publish(FailedView);
      }
    }

    /** The read is over. A refresh that came meanwhile is read now, exactly if it is still wanted. */
    method Finally(now: Clocks)
      requires Valid() && pending.Some? && pending.value.stage.Settling?
      modifies this`pending, this`queued, this`readCount, this`clocks, this`log, this`trace
      ensures Valid() && !queued
      ensures if old(queued) then
                && pending.Some? && pending.value.token == generation && pending.value.stage.Waiting?
                && log == old(log) + [Ended, Started]
              else pending.None? && log == old(log) + [Ended]
    {
      hide ClocksSound, Replay, FreshnessClock.Sound;
      var active := pending.value;
      pending := None;
      Note(Ended);
      if live && visible && queued && !active.timedOut {
        queued := false;
        Begin(now);
      }
    }

    /** Half a minute has passed since the read was set up: it is given up. */
    method Deadline()
      requires Valid() && pending.Some?
      modifies this
      ensures Valid() && clocks == old(clocks)
      ensures !old(live) ==> unchanged(this)
      ensures old(live) ==>
                && pending == Some(old(pending).value.(timedOut := true, aborted := true)) && generation == old(generation) + 1
                && !queued && !requested && freshness == null
                && (visible ==> view == FailedView)
                && log == old(log) + [Invalidated] + (if visible && !old(view).FailedView? then [Published(Failed)] else [])
    {
      hide ClocksSound, Replay, Step, FreshnessClock.Sound, FreshnessClock.InTime;
      if !live { return; }
      Invalidate();
      pending := Some(pending.value.(timedOut := true, aborted := true));
      queued, requested := false, false;
      if visible && !view.FailedView? {
        Publish(FailedView);
      }
    }

    // ---------- calls by the owner ----------

    /** Asks for a fresh report: read at once, or as soon as the read in flight has settled. After a read that timed
        out or was denied, and has not settled, the view fails instead. */
    method Refresh(now: Clocks)
      requires Valid()
      modifies this
      ensures Valid() && old(clocks) <= clocks && fresh(clocks - old(clocks))
      ensures !old(live) || !old(visible) ==> unchanged(this)
      ensures old(live) && old(visible) ==>
                && generation == old(generation) + 1 && freshness == null && hiddenFreshness == null
                && (if old(pending).None? then
                      && view == LoadingView && requested && pending.Some? && pending.value.token == generation
                      && log == old(log) + [Invalidated, Published(Loading), Started]
                    else if old(pending).value.timedOut || old(pending).value.unavailable then
                      && view == FailedView && !requested && !queued && pending == old(pending)
                      && log == old(log) + [Invalidated, Published(Failed)]
                    else
                      && view == LoadingView && requested && queued
                      && pending == Some(old(pending).value.(aborted := true))
                      && log == old(log) + [Invalidated, Published(Loading)])
    {
      hide ClocksSound, Replay, Step, FreshnessClock.Sound, FreshnessClock.InTime;
      if !live || !visible { return; }
      requested, hiddenFreshness := true, null;
      Invalidate();
      if pending.Some? && (pending.value.timedOut || pending.value.unavailable) {
        FailBehind();
      } else {
        Publish(LoadingView);
        Reread(now);
      }
    }

    /** The view fails while a read that is no longer wanted has not settled. */
    method FailBehind()
      requires Clocked() && Traced() && live && visible && freshness == null
      requires pending.Some? && pending.value.token < generation
      modifies this`queued, this`requested, this`view, this`log
      ensures Valid() && view == FailedView && !requested && !queued && log == old(log) + [Published(Failed)]
    {
      hide ClocksSound, Replay, Step, FreshnessClock.Sound, FreshnessClock.InTime;
      queued, requested := false, false;
      Publish(FailedView);
    }

    /** Reads again now or, aborting the read in flight, as soon as that has settled. */
    method Reread(now: Clocks)
      requires Clocked() && Traced() && view.LoadingView? && live && visible && requested
      requires pending.Some? ==> !pending.value.timedOut && !pending.value.unavailable && pending.value.token < generation
      modifies this`pending, this`queued, this`readCount, this`clocks, this`log, this`trace
      ensures Valid() && old(clocks) <= clocks && fresh(clocks - old(clocks))
      ensures if old(pending).Some? then
                queued && pending == Some(old(pending).value.(aborted := true)) && log == old(log)
              else pending.Some? && pending.value.token == generation && log == old(log) + [Started]
    {
      hide ClocksSound, Replay, Step, FreshnessClock.Sound;
      if pending.Some? {
        queued := true;
        pending := Some(pending.value.(aborted := true));
        return;
      }
      queued := false;
      Begin(now);
    }

    /** The owner hides or shows the view. Hiding drops what is read and shown; showing asks again for what was asked
        for, unless the report that was hidden has expired meanwhile, which is a failure. */
    method SetVisible(next: bool, now: Clocks, later: Clocks)
      requires Valid()
      modifies this, hiddenFreshness
      ensures Valid()
      ensures !old(live) || old(visible) == next ==> unchanged(this)
      ensures old(live) && old(visible) && !next ==>
                && !visible && view == IdleView && generation == old(generation) + 1 && !queued && freshness == null
                && hiddenFreshness == (if old(view).ReadyView? then old(freshness) else null)
                && requested == old(requested) && log == old(log) + [Invalidated, Published(Idle)]
                && pending == (if old(pending).None? then None else Some(old(pending).value.(aborted := true)))
      ensures old(live) && !old(visible) && next ==>
                && visible && hiddenFreshness == null
                && (view == FailedView || (view == LoadingView && requested) || (view == IdleView && !old(requested)))
                && (view == IdleView ==> log == old(log) && pending == old(pending))
      ensures old(live) && !old(visible) && next && old(hiddenFreshness) != null && view != FailedView ==>
                old(hiddenFreshness).InTime(now.wall, now.monotonic)
    {
      hide Replay, Step, FreshnessClock.Sound, FreshnessClock.InTime;
      if !live || visible == next { return; }
      visible := next;
      if !visible {
        Hide();
      } else {
        var expired := false;
        if hiddenFreshness != null {
          var left := hiddenFreshness.Remaining(now.wall, now.monotonic);
          expired := left <= 0.0;
        }
        hiddenFreshness := null;
        if expired {
          Expire();
        } else if requested {
          Refresh(later);
        }
      }
    }

    method Hide()
      requires Clocked() && Traced() && live && !visible
      modifies this
      ensures Valid() && live && !visible && view == IdleView && generation == old(generation) + 1 && !queued
      ensures clocks == old(clocks) && requested == old(requested) && freshness == null
      ensures hiddenFreshness == (if old(view).ReadyView? then old(freshness) else null)
      ensures log == old(log) + [Invalidated, Published(Idle)]
      ensures pending == (if old(pending).None? then None else Some(old(pending).value.(aborted := true)))
    {
      hide ClocksSound, Replay, Step, FreshnessClock.Sound;
      hiddenFreshness := if view.ReadyView? then freshness else null;
      Invalidate();
      queued := false;
      if pending.Some? {
        pending := Some(pending.value.(aborted := true));
      }
      Publish(IdleView);
    }

    /** What may be rendered now. A report is returned only while, by both clocks, it is before every expiry. */
    method Current(now: Clocks) returns (shown: View)
      requires Valid()
      modifies freshness
      ensures Valid()
      ensures shown == view || (view.ReadyView? && shown == FailedView)
      ensures shown.ReadyView? ==>
                && live && visible && freshness.InTime(now.wall, now.monotonic)
                && freshness.asOf == shown.data.asOf && freshness.validUntil == shown.data.validUntil
    {
      hide Replay, Step, FreshnessClock.Sound, FreshnessClock.InTime;
      shown := view;
      if view.ReadyView? {
        if !visible || freshness == null { return FailedView; }
        var left := freshness.Remaining(now.wall, now.monotonic);
        if left <= 0.0 { return FailedView; }
      }
    }

    /** Lets a shown report expire if it is past its validity. */
    method Check(now: Clocks)
      requires Valid()
      modifies this, freshness
      ensures Valid() && live == old(live) && visible == old(visible) && clocks == old(clocks) && pending == old(pending)
      ensures !old(view).ReadyView? ==> unchanged(this)
      ensures view.ReadyView? ==> unchanged(this) && freshness.InTime(now.wall, now.monotonic)
      ensures old(view).ReadyView? && !view.ReadyView? ==> view == FailedView && !requested && log == old(log) + [Published(Failed)]
    {
      hide Replay, Step, FreshnessClock.Sound, FreshnessClock.InTime;
      if live && view.ReadyView? {
        var shown := Current(now);
        if shown == FailedView { Expire(); }
      }
    }

    /** The owner's life-cycle event: a shown report is checked, and what is asked for is read again. */
    method Revalidate(now: Clocks, later: Clocks)
      requires Valid()
      modifies this, freshness
      ensures Valid()
      ensures !old(live) || !old(visible) ==> unchanged(this)
      ensures old(live) && old(visible) && requested ==> view == LoadingView
    {
      hide Replay, Step, FreshnessClock.Sound, FreshnessClock.InTime;
      if !live || !visible { return; }
      Check(now);
      if requested { Refresh(later); }
    }

    /** The running expiry timer fires. */
    method ExpiryTimerFires(now: Clocks)
      requires Valid() && expiryTimer.Some?
      modifies this, freshness
      ensures Valid() && (view.ReadyView? ==> freshness.InTime(now.wall, now.monotonic))
    {
      hide Replay, Step, FreshnessClock.Sound, FreshnessClock.InTime;
      ScheduleExpiry(now);
    }

    /** A denial of the read in flight, known before it settles, clears the view at once and for good as far as that
        read is concerned; a denial of any other read is ignored. */
    method Unavailable(signal: nat)
      requires Valid()
      modifies this
      ensures Valid()
      ensures var heard := old(live && visible && pending.Some? && pending.value.signal == signal
                               && pending.value.token == generation && !pending.value.timedOut && !pending.value.unavailable);
              && (!heard ==> unchanged(this))
              && (heard ==> view == FailedView && !requested && !queued && freshness == null
                            && pending == Some(old(pending).value.(unavailable := true))
                            && generation == old(generation) + 1 && log == old(log) + [Invalidated, Published(Failed)])
    {
      hide ClocksSound, Replay, Step, FreshnessClock.Sound;
      if !live || !visible || pending.None? || pending.value.signal != signal || pending.value.token != generation {
        return;
      }
      if pending.value.timedOut || pending.value.unavailable { return; }
      Invalidate();
      pending := Some(pending.value.(unavailable := true));
      queued, requested := false, false;
      Publish(FailedView);
    }

    /** Nothing is shown or read from now on. */
    method Dispose()
      requires Valid()
      modifies this
      ensures Valid() && !live
      ensures !old(live) ==> unchanged(this)
      ensures old(live) ==>
                && view == IdleView && !queued && freshness == null && hiddenFreshness == null
                && generation == old(generation) + 1 && log == old(log) + [Disposed]
                && pending == (if old(pending).None? then None else Some(old(pending).value.(aborted := true)))
    {
      hide ClocksSound, Replay, Step, FreshnessClock.Sound;
      if !live { return; }
      EndLife();
      queued, hiddenFreshness := false, null;
      if pending.Some? {
        pending := Some(pending.value.(aborted := true));
      }
      view := IdleView;
    }

    method EndLife()
      requires Clocked() && Traced() && live
      modifies this`live, this`generation, this`expiryTimer, this`freshness, this`log, this`trace
      ensures Clocked() && Traced() && !live && generation == old(generation) + 1
      ensures pending.Some? ==> pending.value.token < generation
      ensures expiryTimer.None? && freshness == null && log == old(log) + [Disposed]
    {
      hide ClocksSound, Replay, FreshnessClock.Sound;
      live := false;
      generation := generation + 1;
      Note(Disposed);
      ClearExpiry();
    }

    /** Nothing keeps the view from settling: while it shows loading, a read is on its way that will be shown, or a
        fresh read is queued behind the one in flight. A shown report always has its expiry timer running. */
    lemma NeverStuck()
      requires Valid()
      ensures view.LoadingView? ==> pending.Some? && (queued <==> pending.value.token < generation)
      ensures view.ReadyView? ==> live && visible && expiryTimer.Some? && freshness != null && freshness.bound && !queued
      ensures view.ReadyView? && pending.Some? && pending.value.token == generation ==> pending.value.stage.Settling?
    {
    }
  }
}
