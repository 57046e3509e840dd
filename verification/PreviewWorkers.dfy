/** Two workers that load the reconciliation previews of a few projects under one lease. The methods are the stretches
    between two awaits, so what every method keeps holds for every interleaving of the two workers. */
module PreviewWorkers {
  import opened Wrappers

  const MAX_PROJECTS: nat := 5

  datatype Kind = Milestone | Scalar

  datatype Part = Loading | Unavailable | Ready(page: nat)

  datatype Row = Row(project: nat, milestone: Part, scalar: Part) {
    function Of(kind: Kind): Part { if kind.Milestone? then milestone else scalar }

    function With(kind: Kind, part: Part): Row {
      if kind.Milestone? then this.(milestone := part) else this.(scalar := part)
    }
  }

  /** A worker waits for one request of one project, or is through. */
  datatype Worker = Through | Waiting(index: nat, kind: Kind, latched: bool, denied: bool)

  // ---------- the state of a batch ----------

  predicate Holds(x: Worker, i: nat) { x.Waiting? && x.index == i }

  /** There are two workers, at different projects that have been taken. */
  ghost predicate Placed(rows: seq<Row>, next: nat, workers: seq<Worker>) {
    && |workers| == 2
    && (forall w :: 0 <= w < 2 && workers[w].Waiting? ==> workers[w].index < |rows| && workers[w].index < next)
    && (workers[0].Waiting? && workers[1].Waiting? ==> workers[0].index != workers[1].index)
  }

  /** Every project below the counter has been asked for once, its milestones before its scalars; none above. */
  ghost predicate Asked(rows: seq<Row>, next: nat, workers: seq<Worker>, requests: seq<(nat, Kind)>)
    requires |workers| == 2
  {
    && Distinct(requests)
    && (forall i: nat :: (i, Milestone) in requests <==> i < |rows| && i < next)
    && MilestonesFirst(requests)
    && (forall w :: 0 <= w < 2 && workers[w].Waiting? ==> ((workers[w].index, Scalar) in requests <==> workers[w].kind.Scalar?))
  }

  /** A row no worker stands at is untouched or done. */
  ghost predicate RowFits(i: nat, row: Row, next: nat, workers: seq<Worker>, requests: seq<(nat, Kind)>, refused: set<nat>)
    requires |workers| == 2
  {
    if i >= next then row.milestone.Loading? && row.scalar.Loading?
    else !Holds(workers[0], i) && !Holds(workers[1], i) ==>
      && !row.milestone.Loading? && !row.scalar.Loading? && ((i, Scalar) in requests || i in refused)
  }

  /** The row a worker stands at is as far as the worker. */
  ghost predicate WorkerFits(x: Worker, rows: seq<Row>, refused: set<nat>) {
    x.Waiting? && x.index < |rows| ==>
      && (x.denied <==> x.index in refused)
      && (x.denied ==> x.latched)
      && (x.latched ==> rows[x.index].Of(x.kind).Unavailable?)
      && (x.kind.Scalar? ==> !rows[x.index].milestone.Loading?)
  }

  ghost predicate RefusedFit(rows: seq<Row>, next: nat, refused: set<nat>) {
    forall i :: i in refused ==> i < |rows| && i < next && rows[i].milestone.Unavailable? && rows[i].scalar.Unavailable?
  }

  /** While nothing is aborted, each row is as far as its worker. */
  ghost predicate Filled(rows: seq<Row>, next: nat, workers: seq<Worker>, requests: seq<(nat, Kind)>, refused: set<nat>)
    requires |workers| == 2
  {
    && (forall i :: 0 <= i < |rows| ==> RowFits(i, rows[i], next, workers, requests, refused))
    && WorkerFits(workers[0], rows, refused) && WorkerFits(workers[1], rows, refused)
    && RefusedFit(rows, next, refused)
  }

  lemma RefuseKeeps(rows: seq<Row>, next: nat, workers: seq<Worker>, requests: seq<(nat, Kind)>, refused: set<nat>, w: nat)
    requires Placed(rows, next, workers) && w < 2 && workers[w].Waiting? && Filled(rows, next, workers, requests, refused)
    ensures var x, i := workers[w], workers[w].index;
      Filled(rows[i := rows[i].(milestone := Unavailable, scalar := Unavailable)], next,
             workers[w := x.(latched := true, denied := true)], requests, refused + {i})
  {
  }

  lemma LatchKeeps(rows: seq<Row>, next: nat, workers: seq<Worker>, requests: seq<(nat, Kind)>, refused: set<nat>, w: nat)
    requires Placed(rows, next, workers) && w < 2 && workers[w].Waiting? && !workers[w].denied && Filled(rows, next, workers, requests, refused)
    ensures var x, i := workers[w], workers[w].index;
      Filled(rows[i := rows[i].With(x.kind, Unavailable)], next, workers[w := x.(latched := true)], requests, refused)
  {
  }

  lemma FillKeeps(rows: seq<Row>, next: nat, workers: seq<Worker>, requests: seq<(nat, Kind)>, refused: set<nat>, w: nat, part: Part)
    requires Placed(rows, next, workers) && w < 2 && workers[w].Waiting? && Filled(rows, next, workers, requests, refused)
    requires !part.Loading? && (workers[w].latched ==> part.Unavailable?)
    ensures var x, i := workers[w], workers[w].index;
      Filled(rows[i := rows[i].With(x.kind, part)], next, workers, requests, refused)
  {
  }

  lemma AskKeeps(rows: seq<Row>, next: nat, workers: seq<Worker>, requests: seq<(nat, Kind)>, refused: set<nat>, w: nat)
    requires Placed(rows, next, workers) && w < 2 && workers[w].Waiting? && workers[w].kind.Milestone? && !workers[w].denied
    requires Filled(rows, next, workers, requests, refused) && Asked(rows, next, workers, requests)
    requires !rows[workers[w].index].milestone.Loading?
    ensures var i := workers[w].index;
            var workers', requests' := workers[w := Waiting(i, Scalar, false, false)], requests + [(i, Scalar)];
      Filled(rows, next, workers', requests', refused) && Asked(rows, next, workers', requests')
  {
    AskedMore(requests, (workers[w].index, Scalar));
    hide Distinct, MilestonesFirst;
  }

  /** A worker that has filled in the last of its project's parts may leave it. */
  lemma LeaveKeeps(rows: seq<Row>, next: nat, workers: seq<Worker>, requests: seq<(nat, Kind)>, refused: set<nat>, w: nat)
    requires Placed(rows, next, workers) && w < 2 && workers[w].Waiting? && (workers[w].kind.Scalar? || workers[w].denied)
    requires Filled(rows, next, workers, requests, refused) && Asked(rows, next, workers, requests)
    requires !rows[workers[w].index].Of(workers[w].kind).Loading?
    ensures Filled(rows, next, workers[w := Through], requests, refused) && Asked(rows, next, workers[w := Through], requests)
  {
    hide Distinct, MilestonesFirst;
  }

  lemma TakeKeeps(rows: seq<Row>, next: nat, workers: seq<Worker>, requests: seq<(nat, Kind)>, refused: set<nat>, w: nat)
    requires Placed(rows, next, workers) && w < 2 && workers[w].Through? && next < |rows|
    requires Asked(rows, next, workers, requests)
    ensures var workers', requests' := workers[w := Waiting(next, Milestone, false, false)], requests + [(next, Milestone)];
      && Asked(rows, next + 1, workers', requests')
      && (Filled(rows, next, workers, requests, refused) ==> Filled(rows, next + 1, workers', requests', refused))
  {
    AskedMore(requests, (next, Milestone));
    assert forall k :: 0 <= k < |requests| && requests[k].1.Scalar? ==> (requests[k].0, Milestone) in requests;
    hide Distinct, MilestonesFirst;
  }

  /** Which requests have been made does not depend on what the rows hold, nor on the flags of a worker. */
  lemma SameAsked(rows: seq<Row>, later: seq<Row>, next: nat, workers: seq<Worker>, requests: seq<(nat, Kind)>, w: nat, x: Worker)
    requires |workers| == 2 && w < 2 && |rows| == |later| && Asked(rows, next, workers, requests)
    requires workers[w].Waiting? && x.Waiting? && x.index == workers[w].index && x.kind == workers[w].kind
    ensures Asked(later, next, workers[w := x], requests)
    ensures x == workers[w] ==> Asked(later, next, workers, requests)
  {
    hide Distinct, MilestonesFirst;
    assert workers[w := workers[w]] == workers;
  }

  lemma PastTheEnd(rows: seq<Row>, next: nat, workers: seq<Worker>, requests: seq<(nat, Kind)>, refused: set<nat>)
    requires |workers| == 2 && next >= |rows|
    ensures Asked(rows, next, workers, requests) ==> Asked(rows, next + 1, workers, requests)
    ensures Filled(rows, next, workers, requests, refused) ==> Filled(rows, next + 1, workers, requests, refused)
  {
  }

  class Lease {
    var batchActive: bool
    var paging: bool
    var aborted: bool
    var rows: seq<Row>
    var next: nat
    var workers: seq<Worker>

    /** The requests made and the rows shown in this batch, and the projects found denied. */
    ghost var requests: seq<(nat, Kind)>
    ghost var shown: seq<seq<Row>>
    ghost var refused: set<nat>

    ghost predicate Core()
      reads this
    {
      && Placed(rows, next, workers)
      && (paging || workers != [Through, Through] ==> batchActive)
      && (paging ==> workers == [Through, Through])
      && (batchActive && !paging ==> Asked(rows, next, workers, requests))
      && (batchActive && !paging && !aborted ==> Filled(rows, next, workers, requests, refused))
    }

    /** The invariant; a worker is through only when no project is left, or after an abort. */
    ghost predicate Valid()
      reads this
    {
      Core() && (batchActive && !paging && !aborted && (workers[0].Through? || workers[1].Through?) ==> next >= |rows|)
    }

    constructor ()
      ensures Valid() && !batchActive
    {
      batchActive, paging, aborted, rows, next, workers := false, false, false, [], 0, [Through, Through];
      requests, shown, refused := [], [], {};
    }

    /** Shows the rows, unless aborted. The callback they are shown to may itself abort. */
    method Update(aborts: bool)
      modifies this`shown, this`aborted
      ensures aborted == (old(aborted) || aborts)
      ensures shown == if old(aborted) then old(shown) else old(shown) + [rows]
    {
      if !aborted {
        shown := shown + [rows];
        aborted := aborts;
      }
    }

    /** Takes the lease for a batch and sets both workers to work; `aborts` says whether the callback that is shown the
        loading rows aborts. */
    method Load(projects: seq<nat>, subjectGiven: bool, signalAborted: bool, aborts: bool) returns (ok: bool)
      requires Valid()
      modifies this
      ensures Valid()
      ensures ok <==> !old(batchActive) && !signalAborted && |projects| <= MAX_PROJECTS && Distinct(projects) && subjectGiven
      ensures !ok ==> unchanged(this)
      ensures ok ==>
                && batchActive && !paging && aborted == aborts && |rows| == |projects| && refused == {}
                && (forall i :: 0 <= i < |rows| ==> rows[i] == Row(projects[i], Loading, Loading))
                && shown == [rows]
                && requests == [(0, Milestone), (1, Milestone)][..if aborts then 0 else if |projects| <= 2 then |projects| else 2]
    {
      if batchActive || signalAborted || |projects| > MAX_PROJECTS || !AllDistinct(projects) || !subjectGiven {
        return false;
      }
      hide Asked, Filled, Placed;
      Begin(projects, aborts);
      TakeNext(0);
      TakeNext(1);
      ok := true;
    }

    /** The rows of a new batch, all loading. */
    method Begin(projects: seq<nat>, aborts: bool)
      requires Valid() && !batchActive
      modifies this
      ensures Core() && batchActive && !paging && aborted == aborts && workers == [Through, Through] && next == 0
      ensures |rows| == |projects| && forall i :: 0 <= i < |rows| ==> rows[i] == Row(projects[i], Loading, Loading)
      ensures requests == [] && refused == {} && shown == [rows]
    {
      batchActive, aborted, next, workers := true, false, 0, [Through, Through];
      rows := seq(|projects|, i requires 0 <= i < |projects| => Row(projects[i], Loading, Loading));
      requests, shown, refused := [], [], {};
      Update(aborts);
    }

    /** A worker without a request takes the next project, if there is one and nothing is aborted. */
    method TakeNext(w: nat)
      requires Core() && batchActive && !paging && w < 2 && workers[w].Through?
      modifies this`next, this`workers, this`requests
      ensures Core()
      ensures if aborted || old(next) >= |rows| then
                workers == old(workers) && requests == old(requests) && next == (if aborted then old(next) else old(next) + 1)
              else
                && workers == old(workers)[w := Waiting(old(next), Milestone, false, false)]
                && requests == old(requests) + [(old(next), Milestone)] && next == old(next) + 1
    {
      if aborted { return; }
      hide Distinct, MilestonesFirst, RowFits, WorkerFits, RefusedFit;
      var index := next;
      if index < |rows| { TakeKeeps(rows, next, workers, requests, refused, w); } else { PastTheEnd(rows, next, workers, requests, refused); }
      next := next + 1;
      if index >= |rows| { return; }
      workers := workers[w := Waiting(index, Milestone, false, false)];
      requests := requests + [(index, Milestone)];
    }

    /** The request of a worker reports that it, or the whole project, is unavailable, before it settles. */
    method ReportUnavailable(w: nat, denied: bool, aborts: bool)
      requires Valid() && batchActive && !paging && w < 2 && workers[w].Waiting?
      modifies this`workers, this`rows, this`shown, this`refused, this`aborted
      ensures Valid() && aborted == (old(aborted) || aborts)
      ensures var x, i := old(workers)[w], old(workers)[w].index;
              var refusal := x.denied || denied;
              && workers == old(workers)[w := x.(latched := true, denied := refusal)]
              && (if old(aborted) then rows == old(rows) && shown == old(shown)
                  else
                    && rows == old(rows)[i := if refusal then old(rows)[i].(milestone := Unavailable, scalar := Unavailable)
                                              else old(rows)[i].With(x.kind, Unavailable)]
                    && shown == old(shown) + [rows])
    {
      hide Distinct, MilestonesFirst;
      var x := workers[w];
      if aborted {
        workers := workers[w := x.(latched := true, denied := x.denied || denied)];
      } else if x.denied || denied {
        Refuse(w, aborts);
      } else {
        Latch(w, aborts);
      }
    }

    method Refuse(w: nat, aborts: bool)
      requires Valid() && batchActive && !paging && w < 2 && workers[w].Waiting? && !aborted
      modifies this`workers, this`rows, this`shown, this`refused, this`aborted
      ensures Valid() && aborted == aborts && shown == old(shown) + [rows]
      ensures var x, i := old(workers)[w], old(workers)[w].index;
              && workers == old(workers)[w := x.(latched := true, denied := true)]
              && rows == old(rows)[i := old(rows)[i].(milestone := Unavailable, scalar := Unavailable)]
    {
      hide Asked, Filled;
      var x := workers[w];
      RefuseKeeps(rows, next, workers, requests, refused, w);
      SameAsked(rows, rows[x.index := rows[x.index].(milestone := Unavailable, scalar := Unavailable)], next, workers, requests, w,
                x.(latched := true, denied := true));
      workers := workers[w := x.(latched := true, denied := true)];
      rows := rows[x.index := rows[x.index].(milestone := Unavailable, scalar := Unavailable)];
      refused := refused + {x.index};
      Update(aborts);
    }

    method Latch(w: nat, aborts: bool)
      requires Valid() && batchActive && !paging && w < 2 && workers[w].Waiting? && !aborted && !workers[w].denied
      modifies this`workers, this`rows, this`shown, this`aborted
      ensures Valid() && aborted == aborts && shown == old(shown) + [rows]
      ensures var x, i := old(workers)[w], old(workers)[w].index;
              && workers == old(workers)[w := x.(latched := true)]
              && rows == old(rows)[i := old(rows)[i].With(x.kind, Unavailable)]
    {
      hide Asked, Filled;
      var x := workers[w];
      LatchKeeps(rows, next, workers, requests, refused, w);
      SameAsked(rows, rows[x.index := rows[x.index].With(x.kind, Unavailable)], next, workers, requests, w, x.(latched := true));
      workers := workers[w := x.(latched := true)];
      rows := rows[x.index := rows[x.index].With(x.kind, Unavailable)];
      Update(aborts);
    }

    /** The request of a worker settles, with a page that can be read or without one. The worker goes on to the
        project's scalars, or, after those or a denial, to the next project; unless it is aborted, be it by the callback
        to which what was filled in is shown. */
    method Settle(w: nat, page: Option<nat>, aborts: bool)
      requires Valid() && batchActive && !paging && w < 2 && workers[w].Waiting?
      modifies this`workers, this`rows, this`shown, this`requests, this`next, this`aborted
      ensures Valid() && aborted == (old(aborted) || aborts)
      ensures aborted ==> workers == old(workers)[w := Through] && requests == old(requests)
      ensures old(aborted) ==> rows == old(rows) && shown == old(shown)
      ensures !old(aborted) ==>
                var x := old(workers)[w];
                var part := if x.latched || page.None? then Unavailable else Ready(page.value);
                rows == old(rows)[x.index := old(rows)[x.index].With(x.kind, part)] && shown == old(shown) + [rows]
      ensures !aborted ==>
                var x := old(workers)[w];
                && (x.kind.Milestone? && !x.denied ==>
                      workers == old(workers)[w := Waiting(x.index, Scalar, false, false)]
                      && requests == old(requests) + [(x.index, Scalar)])
                && (x.kind.Scalar? || x.denied ==>
                      requests == old(requests) + if old(next) < |rows| then [(old(next), Milestone)] else [])
    {
      hide Distinct, MilestonesFirst;
      var x := workers[w];
      if !aborted {
        FillPart(w, if x.latched || page.None? then Unavailable else Ready(page.value), aborts);
      }
      if aborted {
        workers := workers[w := Through];
      } else if x.kind.Milestone? && !x.denied {
        AskScalars(w);
      } else {
        LeaveKeeps(rows, next, workers, requests, refused, w);
        workers := workers[w := Through];
        TakeNext(w);
      }
    }

    /** Fills in what a request brought. The worker still stands at that request. */
    method FillPart(w: nat, part: Part, aborts: bool)
      requires Valid() && batchActive && !paging && w < 2 && workers[w].Waiting? && !aborted
      requires !part.Loading? && (workers[w].latched ==> part.Unavailable?)
      modifies this`rows, this`shown, this`aborted
      ensures Valid() && aborted == aborts && !rows[workers[w].index].Of(workers[w].kind).Loading?
      ensures rows == old(rows)[workers[w].index := old(rows)[workers[w].index].With(workers[w].kind, part)]
      ensures shown == old(shown) + [rows]
    {
      hide Asked, Filled;
      FillKeeps(rows, next, workers, requests, refused, w, part);
      SameAsked(rows, rows[workers[w].index := rows[workers[w].index].With(workers[w].kind, part)], next, workers, requests, w, workers[w]);
      rows := rows[workers[w].index := rows[workers[w].index].With(workers[w].kind, part)];
      Update(aborts);
    }

    /** After a project's milestones its scalars. */
    method AskScalars(w: nat)
      requires Valid() && batchActive && !paging && w < 2 && workers[w].Waiting? && workers[w].kind.Milestone? && !aborted
      requires !workers[w].denied && !rows[workers[w].index].milestone.Loading?
      modifies this`workers, this`requests
      ensures Valid()
      ensures workers == old(workers)[w := Waiting(old(workers)[w].index, Scalar, false, false)]
      ensures requests == old(requests) + [(old(workers)[w].index, Scalar)]
    {
      hide Asked, Filled;
      var i := workers[w].index;
      AskKeeps(rows, next, workers, requests, refused, w);
      workers := workers[w := Waiting(i, Scalar, false, false)];
      requests := requests + [(i, Scalar)];
    }

    /** Both workers are through: the lease is given up, and the rows go to the caller unless aborted. */
    method Collect() returns (r: Option<seq<Row>>)
      requires Valid() && batchActive && !paging && workers == [Through, Through]
      modifies this`batchActive
      ensures Valid() && !batchActive
      ensures r == if aborted then None else Some(rows)
      ensures r.Some? ==>
                && (forall i :: 0 <= i < |r.value| ==> !r.value[i].milestone.Loading? && !r.value[i].scalar.Loading?)
                && (forall i :: i in refused ==> r.value[i].milestone.Unavailable? && r.value[i].scalar.Unavailable?)
                && (forall i :: 0 <= i < |r.value| ==> (i, Milestone) in requests && ((i, Scalar) in requests || i in refused))
    {
      hide Distinct, MilestonesFirst;
      batchActive := false;
      r := if aborted then None else Some(rows);
      assert !aborted ==> forall i :: 0 <= i < |rows| ==> RowFits(i, rows[i], next, workers, requests, refused);
      forall i | 0 <= i < |rows| && !aborted
        ensures (i, Milestone) in requests && ((i, Scalar) in requests || i in refused)
      {
        assert RowFits(i, rows[i], next, workers, requests, refused);
      }
    }

    /** A single page takes the same lease. */
    method StartPage(signalAborted: bool, argumentsValid: bool) returns (ok: bool)
      requires Valid()
      modifies this`batchActive, this`paging
      ensures Valid() && ok == (!old(batchActive) && !signalAborted && argumentsValid)
      ensures if ok then batchActive && paging else batchActive == old(batchActive) && paging == old(paging)
    {
      hide Distinct, MilestonesFirst;
      if batchActive || signalAborted || !argumentsValid { return false; }
      batchActive, paging := true, true;
      ok := true;
    }

    method EndPage()
      requires Valid() && paging
      modifies this`batchActive, this`paging
      ensures Valid() && !batchActive && !paging
    {
      hide Distinct, MilestonesFirst;
      batchActive, paging := false, false;
    }

    method Abort()
      requires Valid()
      modifies this`aborted
      ensures Valid() && aborted
    {
      aborted := true;
    }
  }

  /** Scalars come after the milestones of the same project. */
  ghost predicate MilestonesFirst(requests: seq<(nat, Kind)>) {
    forall k :: 0 <= k < |requests| && requests[k].1.Scalar? ==> (requests[k].0, Milestone) in requests[..k]
  }

  lemma AskedMore(requests: seq<(nat, Kind)>, r: (nat, Kind))
    requires Distinct(requests) && MilestonesFirst(requests) && r !in requests
    requires r.1.Scalar? ==> (r.0, Milestone) in requests
    ensures Distinct(requests + [r]) && MilestonesFirst(requests + [r])
  {
    var all := requests + [r];
    forall k | 0 <= k < |all| && all[k].1.Scalar?
      ensures (all[k].0, Milestone) in all[..k]
    {
      assert all[..k] == requests[..k];
      if k == |requests| {
        assert requests[..k] == requests;
      }
    }
  }

  predicate AllDistinct(s: seq<nat>)
    ensures AllDistinct(s) <==> Distinct(s)
  {
    forall i, j :: 0 <= i < j < |s| ==> s[i] != s[j]
  }
}
