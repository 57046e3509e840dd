/** The append-only log of authority policies: revisions per fact type, and receipts that make a retried request
    return what it returned first. Each method is one locked transaction. */
module PolicyLog {
  import opened Wrappers

  datatype Scope = Scope(customer: string, project: string, factType: string)

  datatype Actor = Actor(customer: string, subject: string)

  /** A change; without a definition it disables the policy. */
  datatype Change = Change(project: string, factType: string, expectedRevision: nat, effectiveAt: int,
                           definition: Option<string>)

  datatype Event = Event(scope: Scope, revision: nat, recordedAt: int, recordedBy: string, effectiveAt: int,
                         definition: Option<string>)

  datatype ReceiptKey = ReceiptKey(customer: string, project: string, subject: string, idempotencyKey: string)

  /** What was asked, and the position of the event that answered it. */
  datatype Receipt = Receipt(change: Change, event: nat)

  datatype Error = Denied | IdempotencyConflict | RevisionConflict | InvalidRequest

  datatype Reply = Reply(event: Event, replayed: bool)

  function History(events: seq<Event>, scope: Scope): seq<Event> {
    if events == [] then []
    else
      var n := |events| - 1;
      History(events[..n], scope) + (if events[n].scope == scope then [events[n]] else [])
  }

  lemma HistoryMore(events: seq<Event>, e: Event, scope: Scope)
    ensures History(events + [e], scope) == History(events, scope) + (if e.scope == scope then [e] else [])
  {
    assert (events + [e])[..|events|] == events;
  }

  /** A policy's revisions are exactly 1, 2, …, recorded in that order of time. */
  ghost predicate Sequential(history: seq<Event>) {
    && (forall i :: 0 <= i < |history| ==> history[i].revision == i + 1)
    && (forall i, j :: 0 <= i < j < |history| ==> history[i].recordedAt <= history[j].recordedAt)
  }

  predicate Eligible(e: Event, through: nat, asOf: int) {
    e.revision <= through && e.recordedAt <= asOf && e.effectiveAt <= asOf
  }

  /** The eligible event with the greatest revision. */
  function Latest(history: seq<Event>, through: nat, asOf: int): Option<Event> {
    if history == [] then None
    else
      var n := |history| - 1;
      var earlier := Latest(history[..n], through, asOf);
      if Eligible(history[n], through, asOf) && (earlier.None? || earlier.value.revision <= history[n].revision)
      then Some(history[n]) else earlier
  }

  lemma {:induction false} LatestIsGreatest(history: seq<Event>, through: nat, asOf: int)
    ensures var r := Latest(history, through, asOf);
      && (r.Some? ==> r.value in history && Eligible(r.value, through, asOf))
      && (r.Some? ==> forall e :: e in history && Eligible(e, through, asOf) ==> e.revision <= r.value.revision)
      && (r.None? ==> forall e :: e in history ==> !Eligible(e, through, asOf))
  {
    if history != [] {
      var n := |history| - 1;
      LatestIsGreatest(history[..n], through, asOf);
      assert forall e :: e in history <==> e in history[..n] || e == history[n];
    }
  }

  /** A receipt answers with an event that carries out exactly what was asked. */
  ghost predicate Answers(key: ReceiptKey, r: Receipt, events: seq<Event>) {
    && r.event < |events|
    && key.project == r.change.project
    && events[r.event] == Event(Scope(key.customer, r.change.project, r.change.factType), r.change.expectedRevision + 1,
                                events[r.event].recordedAt, key.subject, r.change.effectiveAt, r.change.definition)
  }

  /** The aggregate of a policy counts its revisions. */
  ghost predicate Kept(events: seq<Event>, aggregates: map<Scope, nat>, scope: Scope) {
    && Sequential(History(events, scope))
    && |History(events, scope)| == (if scope in aggregates then aggregates[scope] else 0)
    && (scope in aggregates ==> aggregates[scope] > 0)
  }

  lemma AnswersMore(key: ReceiptKey, r: Receipt, events: seq<Event>, e: Event)
    requires Answers(key, r, events)
    ensures Answers(key, r, events + [e])
  {
  }

  function Advanced(aggregates: map<Scope, nat>, scope: Scope): map<Scope, nat> {
    aggregates[scope := if scope in aggregates then aggregates[scope] + 1 else 1]
  }

  lemma KeptMore(events: seq<Event>, aggregates: map<Scope, nat>, e: Event, scope: Scope)
    requires Kept(events, aggregates, scope)
    requires var h := History(events, e.scope);
             e.revision == |h| + 1 && (h != [] ==> h[|h| - 1].recordedAt <= e.recordedAt)
    ensures Kept(events + [e], Advanced(aggregates, e.scope), scope)
  {
    hide History, Sequential;
    HistoryMore(events, e, scope);
    var h := History(events, scope);
    if scope == e.scope {
      SequentialMore(h, e);
      assert |h + [e]| == |h| + 1;
    } else {
      assert h + [] == h;
    }
  }

  class Repository {
    var aggregates: map<Scope, nat>
    var events: seq<Event>
    var receipts: map<ReceiptKey, Receipt>

    ghost predicate Valid()
      reads this
    {
      && (forall scope :: Kept(events, aggregates, scope))
      && (forall key :: key in receipts ==> Answers(key, receipts[key], events))
    }

    constructor ()
      ensures Valid() && events == [] && receipts == map[] && aggregates == map[]
    {
      aggregates, events, receipts := map[], [], map[];
    }

    /** Appends a revision, or answers a request that has been answered before. */
    method AppendPolicy(actor: Actor, change: Change, idempotencyKey: string, authorized: bool, sourcesValid: bool, now: int)
      returns (r: Result<Reply, Error>)
      requires Valid()
      modifies this
      ensures Valid()
      ensures old(events) <= events
      ensures forall k :: k in old(receipts) ==> k in receipts && receipts[k] == old(receipts)[k]
      ensures var key := ReceiptKey(actor.customer, change.project, actor.subject, idempotencyKey);
              var scope := Scope(actor.customer, change.project, change.factType);
              var history := History(old(events), scope);
              if !authorized then r == Err(Denied) && unchanged(this)
              else if key in old(receipts) then
                && unchanged(this)
                && r == (if receipts[key].change == change then Ok(Reply(events[receipts[key].event], true))
                         else Err(IdempotencyConflict))
              else if |history| != change.expectedRevision then r == Err(RevisionConflict) && unchanged(this)
              else if change.definition.Some? && !sourcesValid then r == Err(InvalidRequest) && unchanged(this)
              else if history != [] && history[|history| - 1].recordedAt > now then r == Err(InvalidRequest) && unchanged(this)
              else
                var e := Event(scope, change.expectedRevision + 1, now, actor.subject, change.effectiveAt, change.definition);
                && r == Ok(Reply(e, false)) && events == old(events) + [e]
                && receipts == old(receipts)[key := Receipt(change, |old(events)|)]
    {
      hide Sequential, History;
      if !authorized { return Err(Denied); }
      var key := ReceiptKey(actor.customer, change.project, actor.subject, idempotencyKey);
      if key in receipts {
        assert Answers(key, receipts[key], events);
        if receipts[key].change != change { return Err(IdempotencyConflict); }
        return Ok(Reply(events[receipts[key].event], true));
      }
      var scope := Scope(actor.customer, change.project, change.factType);
      assert Kept(events, aggregates, scope);
      var revision := if scope in aggregates then aggregates[scope] else 0;
      if revision != change.expectedRevision { return Err(RevisionConflict); }
      if change.definition.Some? && !sourcesValid { return Err(InvalidRequest); }
      if scope in aggregates {
        var previous := Previous(scope);
        if previous.recordedAt > now { return Err(InvalidRequest); }
      }
      var event := Event(scope, change.expectedRevision + 1, now, actor.subject, change.effectiveAt, change.definition);
      Insert(event);
      AddReceipt(key, Receipt(change, |events| - 1));
      r := Ok(Reply(event, false));
    }

    method AddReceipt(key: ReceiptKey, r: Receipt)
      requires Valid() && Answers(key, r, events)
      modifies this`receipts
      ensures Valid() && receipts == old(receipts)[key := r]
    {
      hide Kept, Answers;
      receipts := receipts[key := r];
    }

    /** The stored revision that the aggregate points to. */
    method Previous(scope: Scope) returns (e: Event)
      requires Valid() && scope in aggregates
      ensures var h := History(events, scope); h != [] && e == h[|h| - 1]
    {
      assert Kept(events, aggregates, scope);
      var h := History(events, scope);
      e := h[aggregates[scope] - 1];
    }

    /** Stores an event and advances the aggregate of its policy. */
    method Insert(e: Event)
      requires Valid()
      requires var h := History(events, e.scope); e.revision == |h| + 1 && (h != [] ==> h[|h| - 1].recordedAt <= e.recordedAt)
      modifies this`events, this`aggregates
      ensures Valid() && events == old(events) + [e]
    {
      hide Kept, Answers, Advanced;
      ghost var before, counted := events, aggregates;
      events := events + [e];
      aggregates := Advanced(aggregates, e.scope);
      forall scope: Scope
        ensures Kept(events, aggregates, scope)
      {
        KeptMore(before, counted, e, scope);
      }
      forall key | key in receipts
        ensures Answers(key, receipts[key], events)
      {
        AnswersMore(key, receipts[key], before, e);
      }
    }

    /** The policy in force: of the revisions recorded and effective by an instant the greatest, if there is one. */
    method Active(scope: Scope, asOf: int) returns (e: Option<Event>)
      requires Valid()
      ensures e.None? ==> forall x :: x in History(events, scope) ==> x.recordedAt > asOf || x.effectiveAt > asOf
      ensures e.Some? ==>
                && e.value in History(events, scope) && e.value.recordedAt <= asOf && e.value.effectiveAt <= asOf
                && forall x :: x in History(events, scope) && x.recordedAt <= asOf && x.effectiveAt <= asOf ==>
                     x == e.value || x.revision < e.value.revision
    {
      assert Kept(events, aggregates, scope);
      var history := History(events, scope);
      if scope !in aggregates { return None; }
      e := Latest(history, aggregates[scope], asOf);
      LatestIsGreatest(history, aggregates[scope], asOf);
      hide Latest, History;
      forall x | x in history
        ensures x.revision <= aggregates[scope]
        ensures e.Some? && x.revision == e.value.revision ==> x == e.value
      {
        var i :| 0 <= i < |history| && history[i] == x;
        if e.Some? {
          var j :| 0 <= j < |history| && history[j] == e.value;
        }
      }
    }
  }

  lemma SequentialMore(history: seq<Event>, e: Event)
    requires Sequential(history) && e.revision == |history| + 1
    requires history != [] ==> history[|history| - 1].recordedAt <= e.recordedAt
    ensures Sequential(history + [e])
  {
    var h := history + [e];
    forall i, j | 0 <= i < j < |h|
      ensures h[i].recordedAt <= h[j].recordedAt
    {
      if j == |history| {
        assert history[i].recordedAt <= history[|history| - 1].recordedAt;
      }
    }
  }
}
