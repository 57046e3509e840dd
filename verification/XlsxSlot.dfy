/** A slot that leases one job at a time to a reader it cannot trust to be clean afterwards. The methods are the
    stretches of code between two awaits: each may be called whenever its precondition says the slot is waiting
    for it, in any order, so an invariant every method keeps holds over every interleaving. */
module XlsxSlot {
  import opened Wrappers
  import opened XlsxLeaseTrace

  const INPUT_LIMIT: int := 1_048_576
  const CHUNK_LIMIT: nat := 65_536
  const TIMEOUT_LIMIT: int := 120_000

  datatype State = IDLE | LEASED | QUARANTINED | RESETTING | CLOSED

  datatype Outcome = Resolved(payload: seq<byte>) | Rejected

  datatype Error = Unavailable

  /** What the run of the active job is waiting for. */
  datatype Run =
    | NotRunning
    | AwaitingChunk(filled: nat, calls: nat)
    | ClosingInput
    | AwaitingResponse
    | ClosingExchange
    | AwaitingReset(next: nat)

  class Job {
    const length: nat
    const deadline: int
    var settled: bool
    var active: bool
    var aborted: bool
    ghost var outcomes: seq<Outcome>

    constructor (length: nat, deadline: int)
      ensures this.length == length && this.deadline == deadline
      ensures !settled && !active && !aborted && outcomes == []
    {
      this.length, this.deadline := length, deadline;
      settled, active, aborted, outcomes := false, false, false, [];
    }

    /** A job's promise has had one outcome if the job is settled, and none before. */
    ghost predicate Sound()
      reads this
    {
      |outcomes| == if settled then 1 else 0
    }

    method Settle(outcome: Outcome)
      requires Sound()
      modifies this`settled, this`outcomes
      ensures settled && Sound()
      ensures outcomes == if old(settled) then old(outcomes) else [outcome]
    {
      if settled { return; }
      settled := true;
      outcomes := outcomes + [outcome];
    }
  }

  function Total(queue: seq<Job>): nat {
    if queue == [] then 0 else queue[0].length + Total(queue[1..])
  }

  lemma {:induction false} TotalAppend(p: seq<Job>, q: seq<Job>)
    ensures Total(p + q) == Total(p) + Total(q)
  {
    if p == [] {
      assert p + q == q;
    } else {
      assert (p + q)[0] == p[0] && (p + q)[1..] == p[1..] + q;
      TotalAppend(p[1..], q);
    }
  }

  function IndexOf(queue: seq<Job>, job: Job): (i: int)
    ensures if job in queue then 0 <= i < |queue| && queue[i] == job else i == -1
  {
    if queue == [] then -1
    else if queue[0] == job then 0
    else
      var i := IndexOf(queue[1..], job);
      if i == -1 then -1 else i + 1
  }

  function Without(queue: seq<Job>, job: Job): seq<Job> {
    var i := IndexOf(queue, job);
    if i == -1 then queue else queue[..i] + queue[i + 1..]
  }

  lemma {:induction false} TotalAround(p: seq<Job>, job: Job, q: seq<Job>)
    ensures Total(p + [job] + q) == Total(p + q) + job.length
  {
    if p == [] {
      assert p + [job] + q == [job] + q && p + q == q && ([job] + q)[1..] == q;
    } else {
      assert (p + [job] + q)[1..] == p[1..] + [job] + q && (p + q)[1..] == p[1..] + q;
      TotalAround(p[1..], job, q);
    }
  }

  lemma WithoutTotal(queue: seq<Job>, job: Job)
    requires job in queue
    ensures |Without(queue, job)| == |queue| - 1
    ensures Total(Without(queue, job)) == Total(queue) - job.length
  {
    hide Total;
    var i := IndexOf(queue, job);
    assert queue == queue[..i] + [job] + queue[i + 1..];
    TotalAround(queue[..i], job, queue[i + 1..]);
  }

  lemma WithoutMember(queue: seq<Job>, job: Job, j: Job)
    requires Distinct(queue) && job in queue
    ensures j in Without(queue, job) <==> j in queue && j != job
  {
    var i := IndexOf(queue, job);
    var p, q := queue[..i], queue[i + 1..];
    if j in queue && j != job {
      var k :| 0 <= k < |queue| && queue[k] == j;
      if k < i {
        assert p[k] == j;
      } else {
        assert q[k - i - 1] == j;
      }
    }
  }

  lemma WithoutDistinct(queue: seq<Job>, job: Job)
    requires Distinct(queue) && job in queue
    ensures Distinct(Without(queue, job))
  {
    var i, w := IndexOf(queue, job), Without(queue, job);
    forall a, b | 0 <= a < b < |w|
      ensures w[a] != w[b]
    {
      assert w[a] == queue[if a < i then a else a + 1];
      assert w[b] == queue[if b < i then b else b + 1];
    }
  }

  lemma WithoutOne(queue: seq<Job>, job: Job)
    requires Distinct(queue) && job in queue
    ensures Distinct(Without(queue, job)) && |Without(queue, job)| == |queue| - 1
    ensures forall j :: j in Without(queue, job) <==> j in queue && j != job
    ensures Total(Without(queue, job)) == Total(queue) - job.length
  {
    hide Without, Total;
    WithoutTotal(queue, job);
    WithoutDistinct(queue, job);
    forall j: Job
      ensures j in Without(queue, job) <==> j in queue && j != job
    {
      WithoutMember(queue, job, j);
    }
  }

  lemma WithoutLast(queue: seq<Job>, job: Job)
    requires job !in queue
    ensures Without(queue + [job], job) == queue
  {
    var q := queue + [job];
    var i := IndexOf(q, job);
    assert forall k :: 0 <= k < |queue| ==> q[k] == queue[k];
    assert q[..i] == queue && q[i + 1..] == [];
  }

  lemma TailOf(queue: seq<Job>)
    requires Distinct(queue) && queue != []
    ensures Distinct(queue[1..]) && queue[0] !in queue[1..] && Total(queue) == queue[0].length + Total(queue[1..])
  {
  }

  /** The first queued job whose deadline has not passed; the i-th look at the clock reads clock(i). */
  function FirstLive(queue: seq<Job>, clock: nat -> int, i: nat): (k: nat)
    requires i <= |queue|
    ensures i <= k <= |queue|
    decreases |queue| - i
  {
    if i == |queue| || clock(i) < queue[i].deadline then i else FirstLive(queue, clock, i + 1)
  }

  lemma FirstLiveOfOne(job: Job, clock: nat -> int)
    ensures FirstLive([job], clock, 0) == if clock(0) < job.deadline then 0 else 1
    ensures [job][..0] == [] && [job][..1] == [job] && [job][1..] == []
  {
    assert [job][0] == job;
  }

  class Slot {
    const prefix: string
    const maxJobs: nat
    const maxReserved: nat
    var counter: nat
    var generation: nat
    var queue: seq<Job>
    var active: Job?
    var quiescent: bool
    var reserved: int
    var state: State
    var run: Run
    var leased: nat
    var bytes: array<byte>

    /** Every job ever admitted, the input of the current job so far, and what has been done with the port. */
    ghost var jobs: set<Job>
    ghost var received: seq<byte>
    ghost var log: seq<Event>

    /** The queue, the active job and the reserved bytes agree, and no job is lost or settled twice. */
    ghost predicate Accounts()
      reads this`queue, this`active, this`reserved, this`jobs, jobs
    {
      && (forall j :: j in queue ==> j in jobs && !j.settled && !j.active)
      && Distinct(queue)
      && (active != null ==> active in jobs && active.active)
      && (forall j :: j in jobs ==> j.Sound() && (j.settled || j in queue || j == active))
      && reserved == Total(queue) + (if active == null then 0 else active.length)
      && reserved <= maxReserved
      && |queue| + (if active == null then 0 else 1) <= maxJobs
    }

    ghost predicate Phase()
      reads this, active
    {
      && (state == IDLE ==> active == null)
      && (state == LEASED ==> active != null && !active.settled)
      && (state == QUARANTINED || state == RESETTING ==> active != null && active.settled)
      && (state == CLOSED ==> queue == [] && (active != null ==> active.settled))
      && (quiescent ==> state == QUARANTINED)
      && (run == NotRunning <==> active == null || quiescent)
      && (state == RESETTING ==> run.AwaitingReset?)
      && (run.AwaitingReset? ==> state == RESETTING || state == CLOSED)
    }

    /** The log is one the trace automaton accepts, and it agrees with the fields. */
    ghost predicate Traced()
      reads this`log, this`generation, this`counter
    {
      && Replay(log).Some?
      && Replay(log).value.generation == generation
      && Replay(log).value.issued == counter <= COUNTER_MAX
    }

    ghost function Now(): Stage
      requires Traced()
      reads this`log, this`generation, this`counter
    {
      Replay(log).value.stage
    }

    ghost predicate Staged()
      requires Traced()
      reads this, active, bytes
    {
      && (state == IDLE ==> Now().Free?)
      && (run.AwaitingChunk? || run.ClosingInput? ==> Now().Working?)
      && (run.AwaitingResponse? || run.ClosingExchange? ==> Now().Exchanging?)
      && (run != NotRunning ==> leased == generation)
      && (run.AwaitingReset? ==> Now() == Stage.Resetting(run.next))
      && (run.AwaitingChunk? && active != null ==>
            bytes.Length == active.length && run.filled <= bytes.Length && bytes[..run.filled] == received)
    }

    ghost predicate Valid()
      reads this, jobs, active, bytes
    {
      && Accounts()
      && Phase()
      && Traced()
      && Staged()
      && (state == IDLE ==> queue == [])
    }

    constructor (prefix: string, maxJobs: nat, maxReserved: nat)
      ensures Valid() && state == IDLE && jobs == {} && log == [] && reserved == 0 && fresh(bytes)
      ensures this.prefix == prefix && this.maxJobs == maxJobs && this.maxReserved == maxReserved
    {
      this.prefix, this.maxJobs, this.maxReserved := prefix, maxJobs, maxReserved;
      counter, generation, leased := 1, 1, 1;
      queue, active, quiescent, reserved, state, run := [], null, false, 0, IDLE, NotRunning;
      bytes := new byte[0];
      jobs, received, log := {}, [], [];
    }

    /** The limits the constructor accepts. */
    static method Create(prefix: string, maxJobs: int, maxReserved: int) returns (r: Result<Slot, Error>)
      ensures r.Ok? <==> 1 <= maxJobs <= 32 && 1 <= maxReserved <= 32 * INPUT_LIMIT
      ensures r.Ok? ==> fresh(r.value) && r.value.Valid() && r.value.maxJobs == maxJobs
                        && r.value.maxReserved == maxReserved
    {
      if maxJobs < 1 || maxJobs > 32 || maxReserved < 1 || maxReserved > 32 * INPUT_LIMIT {
        return Err(Unavailable);
      }
      var slot := new Slot(prefix, maxJobs, maxReserved);
      r := Ok(slot);
    }

    method NextId() returns (id: Option<nat>)
      modifies this`counter
      ensures if old(counter) >= COUNTER_MAX then id.None? && counter == old(counter)
              else id == Some(counter) && counter == old(counter) + 1
    {
      if counter >= COUNTER_MAX { return None; }
      counter := counter + 1;
      id := Some(counter);
    }

    method ReleaseClosed(job: Job)
      modifies this`active, this`reserved, this`quiescent
      ensures if old(active) == job then active == null && reserved == old(reserved) - job.length && !quiescent
              else active == old(active) && reserved == old(reserved) && quiescent == old(quiescent)
    {
      if active == job {
        active := null;
        reserved := reserved - job.length;
        quiescent := false;
      }
    }

    lemma JobsAre()
      requires Accounts()
      ensures forall j :: j in jobs ==> j.settled || j in queue || j == active
      ensures forall j :: j in queue ==> j in jobs && !j.settled && !j.active && j != active
      ensures active != null ==> active in jobs && active.active
      ensures queue == [] ==> reserved == if active == null then 0 else active.length
    {
    }

    /** Fails a job; a queued one still has its place. */
    method Strike(job: Job)
      requires Accounts() && job in jobs && !job.settled
      modifies job
      ensures job.settled && job.aborted && job.outcomes == [Rejected] && job.active == old(job.active)
      ensures if job == active then Accounts() else AccountsBut(job)
    {
      hide Distinct, Total;
      job.aborted := true;
      job.Settle(Rejected);
    }

    /** The accounts while a failed job is still queued. */
    ghost predicate AccountsBut(job: Job)
      reads this`queue, this`active, this`reserved, this`jobs, jobs
    {
      && (forall j :: j in queue ==> j in jobs && (!j.settled || j == job) && !j.active)
      && Distinct(queue)
      && job in queue && job != active
      && (active != null ==> active in jobs && active.active)
      && (forall j :: j in jobs ==> j.Sound() && (j.settled || j in queue || j == active))
      && job.settled
      && reserved == Total(queue) + (if active == null then 0 else active.length)
      && reserved <= maxReserved
      && |queue| + (if active == null then 0 else 1) <= maxJobs
    }

    /** Takes a failed job out of the queue. */
    method Drop(job: Job)
      requires AccountsBut(job)
      modifies this`queue, this`reserved
      ensures Accounts() && queue == Without(old(queue), job) && reserved == old(reserved) - job.length
    {
      hide Distinct, Total;
      WithoutOne(queue, job);
      var i := IndexOf(queue, job);
      if i != -1 {
        queue := queue[..i] + queue[i + 1..];
        reserved := reserved - job.length;
      }
    }

    /** What the timer of a job, its signal, a failed check and closing do to it. */
    method Cancel(job: Job)
      requires Accounts() && job in jobs
      modifies this`queue, this`reserved, this`state, job
      ensures Accounts()
      ensures old(Valid()) ==> Valid()
      ensures if old(job.settled) then
                unchanged(job) && queue == old(queue) && reserved == old(reserved) && state == old(state)
              else
                && job.settled && job.aborted && job.outcomes == [Rejected] && job.active == old(job.active)
                && (if job == active then
                      && queue == old(queue) && reserved == old(reserved)
                      && state == (if old(state) == CLOSED then CLOSED else QUARANTINED)
                    else
                      && queue == Without(old(queue), job) && reserved == old(reserved) - job.length
                      && state == old(state))
    {
      hide Accounts, Replay, Without;
      JobsAre();
      if job.settled { return; }
      Strike(job);
      if !job.active {
        Drop(job);
      } else if state != CLOSED {
        state := QUARANTINED;
      }
    }

    /** Whether the job may go on: a settled, expired or closed-out job is cancelled instead. */
    method Check(job: Job, now: int) returns (ok: bool)
      requires Accounts() && job == active
      modifies this`queue, this`reserved, this`state, job
      ensures Accounts() && (old(Valid()) ==> Valid())
      ensures ok <==> !old(job.settled) && old(state) != CLOSED && now < job.deadline
      ensures queue == old(queue) && reserved == old(reserved)
      ensures if ok || old(job.settled) then unchanged(job) && state == old(state)
              else job.settled && job.aborted && job.outcomes == [Rejected] && job.active
                   && state == (if old(state) == CLOSED then CLOSED else QUARANTINED)
    {
      if job.settled || state == CLOSED || now >= job.deadline {
        Cancel(job);
        return false;
      }
      ok := true;
    }

    /** How a run that is over leaves the slot: waiting for a reset, given up, or, if closed, released. */
    twostate predicate WoundUp(job: Job, events: seq<Event>)
      reads this, job
    {
      && job.settled && !quiescent == (run != NotRunning || state == CLOSED)
      && queue == old(queue) && jobs == old(jobs) && generation == old(generation)
      && (if old(state) == CLOSED then
            && state == CLOSED && active == null && reserved == old(reserved) - job.length && run == NotRunning
            && counter == old(counter) && log == old(log) + events
          else
            && active == job && reserved == old(reserved)
            && (if old(counter) == COUNTER_MAX then
                  state == QUARANTINED && run == NotRunning && counter == old(counter) && log == old(log) + events
                else
                  && state == RESETTING && counter == old(counter) + 1 && run == AwaitingReset(counter)
                  && log == old(log) + events + [ResetStarted(generation, counter)]))
    }

    /** Names the next generation and asks the port to reset to it, unless the identifiers are used up. */
    method AskReset() returns (asked: bool)
      requires Traced() && leased == generation && (Now().Working? || Now().Spent? || counter == COUNTER_MAX)
      modifies this`counter, this`state, this`run, this`log
      ensures Traced() && asked == (old(counter) < COUNTER_MAX)
      ensures if asked then
                && state == RESETTING && counter == old(counter) + 1 && run == AwaitingReset(counter)
                && log == old(log) + [ResetStarted(generation, counter)] && Now() == Stage.Resetting(counter)
              else
                state == old(state) && counter == old(counter) && run == old(run) && log == old(log)
    {
      var next := NextId();
      if next.None? { return false; }
      state := RESETTING;
      run := AwaitingReset(next.value);
      ReplayMore(log, ResetStarted(leased, next.value));
      log := log + [ResetStarted(leased, next.value)];
      asked := true;
    }

    /** A closed slot lets go of its settled job. */
    method Vacate(job: Job)
      requires Accounts() && job == active && job.settled && !quiescent
      modifies this`active, this`reserved, this`quiescent
      ensures Accounts() && active == null && reserved == old(reserved) - job.length && !quiescent
    {
      hide Distinct, Total;
      ReleaseClosed(job);
    }

    /** Leaves the lease of a settled job: released if the slot is closed, otherwise a reset is asked for. */
    method Retire(job: Job)
      requires Accounts() && Traced() && job == active && job.settled && leased == generation
      requires !quiescent && (state == LEASED || state == QUARANTINED || state == CLOSED)
      requires state == CLOSED ==> queue == []
      requires Now().Working? || Now().Spent? || counter == COUNTER_MAX
      modifies this
      ensures Valid()
      ensures WoundUp(job, [])
      ensures bytes == old(bytes)
    {
      hide Accounts, Replay;
      run := NotRunning;
      if state == CLOSED {
        Vacate(job);
        return;
      }
      state := QUARANTINED;
      var asked := AskReset();
      quiescent := !asked;
    }

    /** The end of a run, reached by success and by every failure: the job is settled, and nothing is leased
        again before a reset has been acknowledged. */
    method WindUp(job: Job)
      requires Accounts() && Traced() && job == active && leased == generation
      requires !quiescent && (state == LEASED || state == QUARANTINED || state == CLOSED)
      requires state == CLOSED ==> queue == [] && job.settled
      requires Now().Working? || Now().Spent? || counter == COUNTER_MAX
      modifies this, job
      ensures Valid()
      ensures WoundUp(job, [])
      ensures bytes == old(bytes)
      ensures job.outcomes == if old(job.settled) then old(job.outcomes) else [Rejected]
      ensures job.aborted == old(job.aborted)
    {
      hide Distinct, Total, Replay;
      job.Settle(Rejected);
      Retire(job);
    }

    /** Names the leased job, unless the identifiers are used up. */
    method NameJob() returns (named: bool)
      requires Traced() && Now().Free?
      modifies this`counter, this`log
      ensures Traced() && named == (old(counter) < COUNTER_MAX)
      ensures if named then counter == old(counter) + 1 && log == old(log) + [Event.Leased(counter)] && Now().Working?
              else counter == old(counter) && log == old(log)
    {
      var id := NextId();
      if id.None? { return false; }
      ReplayMore(log, Event.Leased(id.value));
      log := log + [Event.Leased(id.value)];
      named := true;
    }

    /** The first stretch of a run: an identifier and room for the input, or failure at once. */
    method BeginRun(job: Job)
      requires Accounts() && Traced() && job == active && !job.settled
      requires !quiescent && state == LEASED && Now().Free?
      modifies this, job
      ensures Valid()
      ensures bytes == old(bytes) || fresh(bytes)
      ensures if old(counter) == COUNTER_MAX then WoundUp(job, []) && job.outcomes == [Rejected]
              else
                && unchanged(job) && active == job && state == LEASED && queue == old(queue) && jobs == old(jobs)
                && reserved == old(reserved) && generation == old(generation) && counter == old(counter) + 1
                && run == AwaitingChunk(0, 0) && received == [] && log == old(log) + [Event.Leased(counter)]
    {
      hide Accounts, Replay;
      leased := generation;
      var named := NameJob();
      if !named {
        WindUp(job);
        return;
      }
      bytes := new byte[job.length];
      received := [];
      run := AwaitingChunk(0, 0);
    }

    /** The head of the queue is out of time: it leaves the queue and fails. */
    method FailHead()
      requires Accounts() && queue != []
      modifies this`queue, this`reserved, queue[0]
      ensures Accounts() && queue == old(queue)[1..]
      ensures old(queue)[0].outcomes == [Rejected]
    {
      hide Distinct;
      var job := queue[0];
      TailOf(queue);
      queue := queue[1..];
      reserved := reserved - job.length;
      job.Settle(Rejected);
    }

    /** The head of the queue gets the lease. */
    method LeaseHead()
      requires Accounts() && Traced() && state == IDLE && active == null && queue != [] && Now().Free?
      modifies this, queue[0]
      ensures Valid()
      ensures jobs == old(jobs) && (bytes == old(bytes) || fresh(bytes)) && generation == old(generation)
      ensures active == old(queue)[0] && queue == old(queue)[1..]
      ensures Granted(old(queue)[0], old(counter), old(log))
    {
      hide Distinct, Replay;
      var job := queue[0];
      TailOf(queue);
      queue := queue[1..];
      active, job.active, quiescent, state := job, true, false, LEASED;
      BeginRun(job);
    }

    /** A lease as it begins; with the identifiers used up it fails at once and the slot gives up. */
    ghost predicate Granted(job: Job, counterBefore: nat, logBefore: seq<Event>)
      reads this, job
    {
      if counterBefore == COUNTER_MAX then
        state == QUARANTINED && quiescent && job.outcomes == [Rejected] && log == logBefore
      else
        && state == LEASED && !job.settled && job.outcomes == [] && run == AwaitingChunk(0, 0)
        && counter == counterBefore + 1 && log == logBefore + [Event.Leased(counter)]
    }

    /** Grants the lease, if it is free, to the first queued job still in time; jobs before it fail. A queued job is
        never settled, so the source's skip of settled jobs is not reachable. */
    method Pump(clock: nat -> int)
      requires Accounts() && Phase() && Traced() && Staged()
      modifies this, queue
      ensures Valid()
      ensures jobs == old(jobs) && (bytes == old(bytes) || fresh(bytes)) && generation == old(generation)
      ensures old(state) != IDLE ==> unchanged(this) && forall j :: j in jobs ==> unchanged(j)
      ensures old(state) == IDLE ==>
                var k := FirstLive(old(queue), clock, 0);
                && (forall j :: j in old(queue)[..k] ==> j.outcomes == [Rejected])
                && (forall j :: j in jobs && j !in old(queue)[..k] && j != active ==> unchanged(j))
                && (if k == |old(queue)| then
                      state == IDLE && active == null && queue == [] && log == old(log) && counter == old(counter)
                    else
                      && active == old(queue)[k] && queue == old(queue)[k + 1..]
                      && Granted(old(queue)[k], old(counter), old(log)))
    {
      hide Distinct, Replay, Total;
      if state != IDLE { return; }
      var i := 0;
      while queue != []
        invariant i <= |old(queue)| && queue == old(queue)[i..]
        invariant FirstLive(old(queue), clock, 0) == FirstLive(old(queue), clock, i)
        invariant state == IDLE && active == null && !quiescent && run == NotRunning
        invariant jobs == old(jobs) && bytes == old(bytes) && generation == old(generation)
        invariant counter == old(counter) && log == old(log)
        invariant Accounts()
        invariant forall j :: j in old(queue)[..i] ==> j.outcomes == [Rejected]
        invariant forall j :: j in jobs && j !in old(queue)[..i] ==> unchanged(j)
        decreases |queue|
      {
        assert queue[0] == old(queue)[i];
        if clock(i) < queue[0].deadline {
          LeaseHead();
          return;
        }
        FailHead();
        assert old(queue)[..i + 1] == old(queue)[..i] + [old(queue)[i]];
        i := i + 1;
      }
    }

    method Enqueue(job: Job)
      requires Valid() && state != CLOSED && job !in jobs && !job.settled && !job.active && job.outcomes == []
      requires |queue| + (if active == null then 0 else 1) < maxJobs && job.length <= maxReserved - reserved
      modifies this`queue, this`reserved, this`jobs
      ensures Accounts() && Phase() && Traced() && Staged() && jobs == old(jobs) + {job}
      ensures queue == old(queue) + [job] && reserved == old(reserved) + job.length
    {
      TotalAppend(queue, [job]);
      assert Total([job]) == job.length;
      hide Total, Replay;
      reserved := reserved + job.length;
      queue := queue + [job];
      jobs := jobs + {job};
    }

    /** A job whose signal turns out to be aborted leaves the queue it has just joined. */
    method Withdraw(job: Job, ghost before: seq<Job>)
      requires Accounts() && Phase() && Traced() && Staged() && state != CLOSED
      requires queue == before + [job] && !job.settled && job !in before && (state == IDLE ==> before == [])
      modifies this`queue, this`reserved, this`state, job
      ensures Valid() && queue == before && reserved == old(reserved) - job.length && state == old(state)
      ensures job.outcomes == [Rejected]
    {
      hide Distinct, Replay, Total;
      WithoutLast(before, job);
      assert job in queue;
      Cancel(job);
    }

    /** The new job's first chance, with the slot idle and nothing else waiting. */
    method PumpFirst(job: Job, clock: nat -> int)
      requires Accounts() && Phase() && Traced() && Staged() && state == IDLE && queue == [job]
      modifies this, job
      ensures Valid() && jobs == old(jobs) && (bytes == old(bytes) || fresh(bytes)) && queue == []
      ensures if clock(0) < job.deadline then active == job && Granted(job, old(counter), old(log))
              else active == null && state == IDLE && job.outcomes == [Rejected]
    {
      hide Distinct, Replay, Total, FirstLive;
      FirstLiveOfOne(job, clock);
      Pump(clock);
    }

    method Admit(job: Job, abortedNow: bool, clock: nat -> int)
      requires Valid() && state != CLOSED && job !in jobs && !job.settled && !job.active && job.outcomes == []
      requires |queue| + (if active == null then 0 else 1) < maxJobs && job.length <= maxReserved - reserved
      modifies this, job
      ensures Valid() && jobs == old(jobs) + {job} && (bytes == old(bytes) || fresh(bytes))
      ensures abortedNow ==> job.outcomes == [Rejected] && queue == old(queue) && active == old(active)
                             && reserved == old(reserved) && state == old(state)
      ensures abortedNow || old(state) != IDLE ==>
                log == old(log) && run == old(run) && counter == old(counter) && generation == old(generation)
      ensures !abortedNow && old(state) != IDLE ==>
                !job.settled && queue == old(queue) + [job] && active == old(active)
                && reserved == old(reserved) + job.length && state == old(state)
      ensures !abortedNow && old(state) == IDLE ==>
                queue == [] && if clock(0) < job.deadline then active == job && Granted(job, old(counter), old(log))
                               else active == null && state == IDLE && job.outcomes == [Rejected]
    {
      hide Distinct, Replay, Total;
      Enqueue(job);
      if abortedNow {
        Withdraw(job, old(queue));
      } else if state == IDLE {
        PumpFirst(job, clock);
      }
    }

    /** A call for service. The request is admitted only if the slot is open, its length and timeout are in range, its
        signal is not yet aborted, there is a place and there is room, its names can be encoded and its signal can
        be listened to; otherwise nothing changes. An admitted request is queued, and leased at once if it can be. */
    method Submit(length: int, timeout: int, aborted: bool, encodable: bool, listens: bool, abortedNow: bool,
                  now: int, clock: nat -> int)
      returns (r: Result<Job, Error>)
      requires Valid()
      modifies this
      ensures Valid()
      ensures r.Ok? <==>
              && old(state) != CLOSED && 1 <= length <= INPUT_LIMIT && 1 <= timeout <= TIMEOUT_LIMIT && !aborted
              && |old(queue)| + (if old(active) == null then 0 else 1) < maxJobs
              && length <= maxReserved - old(reserved) && encodable && listens
      ensures r.Err? ==> unchanged(this)
      ensures r.Ok? ==> fresh(r.value) && r.value.length == length && r.value.deadline == now + timeout
                        && jobs == old(jobs) + {r.value}
      ensures bytes == old(bytes) || fresh(bytes)
      ensures r.Ok? && abortedNow ==>
                r.value.outcomes == [Rejected] && queue == old(queue) && active == old(active)
                && reserved == old(reserved) && state == old(state)
      ensures r.Ok? && (abortedNow || old(state) != IDLE) ==>
                log == old(log) && run == old(run) && counter == old(counter) && generation == old(generation)
      ensures r.Ok? && !abortedNow && old(state) != IDLE ==>
                !r.value.settled && queue == old(queue) + [r.value] && active == old(active)
                && reserved == old(reserved) + length && state == old(state)
      ensures r.Ok? && !abortedNow && old(state) == IDLE ==>
                queue == [] && if clock(0) < now + timeout then active == r.value && Granted(r.value, old(counter), old(log))
                               else active == null && state == IDLE && r.value.outcomes == [Rejected]
    {
      hide Distinct, Replay, Total;
      if state == CLOSED || length < 1 || length > INPUT_LIMIT || timeout < 1 || timeout > TIMEOUT_LIMIT || aborted {
        return Err(Unavailable);
      }
      if |queue| + (if active == null then 0 else 1) >= maxJobs || length > maxReserved - reserved {
        return Err(Unavailable);
      }
      if !encodable || !listens { return Err(Unavailable); }
      var job := new Job(length, now + timeout);
      Admit(job, abortedNow, clock);
      r := Ok(job);
    }

    /** The input yields a chunk, or something that is not one. A chunk that may be taken is appended to what has
        been received; otherwise the run closes its input. */
    method ChunkArrives(chunk: Option<seq<byte>>, now: int)
      requires Valid() && run.AwaitingChunk?
      modifies this`queue, this`reserved, this`state, this`run, this`received, bytes, active
      ensures Valid() && active == old(active) && queue == old(queue) && reserved == old(reserved)
      ensures var fine := !old(active.settled) && now < active.deadline;
              var taken := fine && old(run).calls < CHUNK_LIMIT && chunk.Some?
                           && |chunk.value| <= active.length - old(run).filled;
              && (taken ==> received == old(received) + chunk.value
                            && run == AwaitingChunk(|received|, old(run).calls + 1))
              && (!taken ==> run == ClosingInput)
              && (fine || old(active.settled) ==> unchanged(active) && state == old(state))
              && (!fine && !old(active.settled) ==> active.outcomes == [Rejected] && active.aborted && state == QUARANTINED)
    {
      hide Accounts, Replay;
      var ok := Check(active, now);
      if !ok {
        run := ClosingInput;
        return;
      }
      var calls := run.calls + 1;
      if calls > CHUNK_LIMIT || chunk.None? || |chunk.value| > bytes.Length - run.filled {
        run := ClosingInput;
        return;
      }
      Fill(run.filled, chunk.value);
      received := received + chunk.value;
      run := AwaitingChunk(run.filled + |chunk.value|, calls);
    }

    /** Copies a chunk into place. */
    method Fill(at: nat, chunk: seq<byte>)
      requires at + |chunk| <= bytes.Length
      modifies bytes
      ensures bytes[..at + |chunk|] == old(bytes[..at]) + chunk
    {
      var k := 0;
      while k < |chunk|
        invariant 0 <= k <= |chunk|
        invariant bytes[..at + k] == old(bytes[..at]) + chunk[..k]
      {
        bytes[at + k] := chunk[k];
        k := k + 1;
      }
      assert chunk[..k] == chunk;
    }

    /** What an awaited producer, exchange or cleanup leaves when the run cannot go on: the exchange, if there was
        one, is over. */
    method RunFails()
      requires Valid() && run != NotRunning && !run.AwaitingReset?
      modifies this, active
      ensures Valid()
      ensures WoundUp(old(active), if old(run).AwaitingResponse? || old(run).ClosingExchange? then [ExchangeEnded] else [])
      ensures old(active).outcomes == if old(active.settled) then old(active.outcomes) else [Rejected]
    {
      hide Accounts, Replay;
      if run.AwaitingResponse? || run.ClosingExchange? {
        EndExchange();
      }
      WindUp(active);
    }

    method EndExchange()
      requires Traced() && Now().Exchanging?
      modifies this`log
      ensures Traced() && Now().Spent? && log == old(log) + [ExchangeEnded]
    {
      ReplayMore(log, ExchangeEnded);
      log := log + [ExchangeEnded];
    }

    method StartExchange()
      requires Traced() && Now().Working? && leased == generation
      modifies this`log
      ensures Traced() && Now().Exchanging? && log == old(log) + [ExchangeStarted(generation, bytes[..])]
    {
      ReplayMore(log, ExchangeStarted(leased, bytes[..]));
      log := log + [ExchangeStarted(leased, bytes[..])];
    }

    /** The complete input is handed to the exchange. */
    method OpenExchange()
      requires Valid() && run.AwaitingChunk? && run.filled == bytes.Length
      modifies this`run, this`log
      ensures Valid() && run == AwaitingResponse && log == old(log) + [ExchangeStarted(generation, received)]
    {
      hide Accounts, Replay;
      assert bytes[..] == received;
      StartExchange();
      run := AwaitingResponse;
    }

    /** The checks between the end of the input and the opening of the exchange. */
    method Prepare(job: Job, t0: int, encoded: bool, t1: int, decodable: bool, t2: int) returns (ready: bool)
      requires Accounts() && job == active && run.AwaitingChunk?
      modifies this`queue, this`reserved, this`state, job
      ensures Accounts() && queue == old(queue) && reserved == old(reserved) && (old(Valid()) ==> Valid())
      ensures ready <==>
              && !old(job.settled) && old(state) != CLOSED && t0 < job.deadline && run.filled == bytes.Length && encoded
              && t1 < job.deadline && decodable && t2 < job.deadline
      ensures ready ==> unchanged(job) && state == old(state)
      ensures job.active && (old(state) == CLOSED ==> state == CLOSED)
      ensures old(state) != CLOSED ==> state == old(state) || state == QUARANTINED
      ensures if old(job.settled) then unchanged(job) else job.outcomes == if job.settled then [Rejected] else []
      ensures old(job.settled) ==> state == old(state)
    {
      hide Distinct, Replay, Total;
      ready := Check(job, t0);
      if !ready || run.filled != bytes.Length || !encoded { return false; }
      ready := Check(job, t1);
      if !ready || !decodable { return false; }
      ready := Check(job, t2);
    }

    /** The input ends. Only a complete input, of exactly the length that was reserved, is exchanged, and what is
        exchanged is what was received, under the generation the lease began with. The clock is read before the
        frame is encoded, before the decoder is made and before the exchange is opened. */
    method InputEnds(t0: int, encoded: bool, t1: int, decodable: bool, t2: int, taken: bool)
      requires Valid() && run.AwaitingChunk?
      modifies this, active
      ensures Valid()
      ensures var d := old(active).deadline;
              var fine := !old(active.settled) && t0 < d && |old(received)| == old(active).length
                          && encoded && t1 < d && decodable && t2 < d;
              var started := ExchangeStarted(old(generation), old(received));
              && (!fine ==> WoundUp(old(active), []))
              && (fine && !taken ==> WoundUp(old(active), [started, ExchangeEnded]))
              && (fine && taken ==> run == AwaitingResponse && log == old(log) + [started] && active == old(active)
                                     && queue == old(queue) && reserved == old(reserved) && state == old(state)
                                     && counter == old(counter) && generation == old(generation) && unchanged(active))
      ensures run != AwaitingResponse ==>
                old(active).outcomes == if old(active.settled) then old(active.outcomes) else [Rejected]
    {
      hide Accounts, Replay;
      var job := active;
      var ready := Prepare(job, t0, encoded, t1, decodable, t2);
      if !ready {
        RunFails();
        return;
      }
      OpenExchange();
      if !taken {
        RunFails();
      }
    }

    /** The exchange yields a piece of the response, which the decoder takes or refuses. */
    method ResponseArrives(now: int, pushed: bool)
      requires Valid() && run.AwaitingResponse?
      modifies this`queue, this`reserved, this`state, this`run, active
      ensures Valid() && active == old(active) && queue == old(queue) && reserved == old(reserved)
      ensures var fine := !old(active.settled) && now < active.deadline;
              && run == (if fine && pushed then AwaitingResponse else ClosingExchange)
              && (fine || old(active.settled) ==> unchanged(active) && state == old(state))
              && (!fine && !old(active.settled) ==> active.outcomes == [Rejected] && active.aborted && state == QUARANTINED)
    {
      hide Accounts, Replay;
      var ok := Check(active, now);
      if !ok || !pushed {
        run := ClosingExchange;
      }
    }

    /** The checks of a response that has ended, and success if they pass. */
    method Judge(job: Job, t0: int, finished: bool, t1: int, positive: bool, payload: seq<byte>)
      requires Accounts() && job == active && (state == CLOSED ==> job.settled)
      modifies this`queue, this`reserved, this`state, job
      ensures Accounts() && queue == old(queue) && reserved == old(reserved)
      ensures if old(job.settled) then unchanged(job) && state == old(state)
              else if t0 < job.deadline && finished && t1 < job.deadline && positive then
                job.outcomes == [Resolved(payload)] && job.settled && state == old(state)
              else job.outcomes == (if job.settled then [Rejected] else []) && (state == old(state) || state == QUARANTINED)
    {
      hide Distinct, Replay, Total;
      var ok := Check(job, t0);
      if ok && finished {
        ok := Check(job, t1);
        if ok && positive {
          job.Settle(Resolved(payload));
        }
      }
    }

    /** The exchange ends. The job succeeds with the payload of a response that is complete, in time and positive. */
    method ExchangeEnds(t0: int, finished: bool, t1: int, positive: bool, payload: seq<byte>)
      requires Valid() && run.AwaitingResponse?
      modifies this, active
      ensures Valid()
      ensures WoundUp(old(active), [ExchangeEnded])
      ensures var d := old(active).deadline;
              old(active).outcomes == if old(active.settled) then old(active.outcomes)
                                      else if t0 < d && finished && t1 < d && positive then [Resolved(payload)]
                                      else [Rejected]
    {
      hide Accounts, Replay;
      var job := active;
      EndExchange();
      Judge(job, t0, finished, t1, positive, payload);
      WindUp(job);
    }

    /** The reset fails: the slot keeps its lease for good, unless it has been closed. */
    method ResetRejects()
      requires Valid() && run.AwaitingReset?
      modifies this`run, this`quiescent, this`state, this`active, this`reserved
      ensures Valid() && run == NotRunning
      ensures if old(state) == CLOSED then state == CLOSED && active == null && reserved == 0
              else state == QUARANTINED && quiescent && active == old(active) && reserved == old(reserved)
    {
      hide Distinct, Replay;
      run := NotRunning;
      if state == CLOSED {
        ReleaseClosed(active);
      } else {
        quiescent := true;
        state := QUARANTINED;
      }
    }

    /** The acknowledged identifier becomes the generation and the lease ends. */
    method Renew()
      requires Valid() && run.AwaitingReset? && state == RESETTING
      modifies this`generation, this`reserved, this`active, this`state, this`run, this`log
      ensures Accounts() && Phase() && Traced() && Staged()
      ensures state == IDLE && generation == old(run).next
      ensures reserved == old(reserved) - old(active).length && log == old(log) + [ResetAcknowledged(old(run).next)]
    {
      hide Distinct, Total;
      ReplayMore(log, ResetAcknowledged(run.next));
      log := log + [ResetAcknowledged(run.next)];
      generation := run.next;
      reserved := reserved - active.length;
      active := null;
      state := IDLE;
      run := NotRunning;
    }

    /** The reset is answered. Only the exact identifier asked for frees the slot. */
    method ResetResolves(acknowledged: string, clock: nat -> int)
      requires Valid() && run.AwaitingReset?
      modifies this, queue
      ensures Valid()
      ensures jobs == old(jobs) && (bytes == old(bytes) || fresh(bytes))
      ensures old(state) == CLOSED ==>
                state == CLOSED && active == null && reserved == 0 && run == NotRunning && log == old(log)
      ensures old(state) != CLOSED && acknowledged != Id(prefix, old(run).next) ==>
                state == QUARANTINED && quiescent && active == old(active) && queue == old(queue)
                && generation == old(generation) && log == old(log)
      ensures old(state) != CLOSED && acknowledged == Id(prefix, old(run).next) ==>
                var k := FirstLive(old(queue), clock, 0);
                var acked := old(log) + [ResetAcknowledged(old(run).next)];
                && generation == old(run).next
                && (forall j :: j in old(queue)[..k] ==> j.outcomes == [Rejected])
                && (if k == |old(queue)| then state == IDLE && active == null && queue == [] && log == acked
                    else active == old(queue)[k] && queue == old(queue)[k + 1..]
                         && Granted(old(queue)[k], old(counter), acked))
    {
      assert Total([]) == 0;
      hide Distinct, Replay, Total;
      var job := active;
      if state == CLOSED {
        ReleaseClosed(job);
        run := NotRunning;
        return;
      }
      if acknowledged != Id(prefix, run.next) {
        ResetRejects();
        return;
      }
      Renew();
      Pump(clock);
    }

    /** The head of the queue, and the queue without it. */
    lemma HeadIs()
      requires Accounts() && queue != []
      ensures queue[0] in jobs && !queue[0].settled && queue[0] != active && Without(queue, queue[0]) == queue[1..]
    {
      TailOf(queue);
    }

    /** Closes the slot: every queued job and the active one fail, and nothing is admitted or leased again. The
        bytes of a job whose run has not returned stay reserved until it does. */
    method Close()
      requires Valid()
      modifies this, jobs
      ensures Valid() && state == CLOSED && jobs == old(jobs) && log == old(log) && bytes == old(bytes)
      ensures old(state) == CLOSED ==> unchanged(this)
      ensures queue == [] && forall j :: j in jobs ==> j.settled
      ensures forall j :: j in jobs ==> j.outcomes == if old(j.settled) then old(j.outcomes) else [Rejected]
      ensures old(run) == NotRunning ==> active == null && reserved == 0
      ensures old(run) != NotRunning ==> active == old(active) && run == old(run) && reserved == active.length
    {
      hide Accounts, Replay;
      JobsAre();
      if state == CLOSED { return; }
      state := CLOSED;
      if active != null {
        CloseActive(active);
      }
      CancelQueued();
      JobsAre();
    }

    method CloseActive(job: Job)
      requires Accounts() && job == active && state == CLOSED
      modifies this`queue, this`reserved, this`state, this`active, this`quiescent, job
      ensures Accounts() && queue == old(queue) && state == CLOSED && !quiescent
      ensures job.outcomes == if old(job.settled) then old(job.outcomes) else [Rejected]
      ensures active == (if old(quiescent) then null else job) && job.settled
    {
      hide Distinct, Replay, Total;
      Cancel(job);
      if quiescent { ReleaseClosed(job); }
    }

    method CancelQueued()
      requires Accounts()
      modifies this`queue, this`reserved, this`state, queue
      ensures Accounts() && queue == [] && state == old(state)
      ensures forall j :: j in old(queue) ==> j.outcomes == [Rejected]
      ensures forall j :: j in jobs && j !in old(queue) ==> unchanged(j)
    {
      hide Accounts, Without;
      var waiting := queue;
      var i := 0;
      while i < |waiting|
        invariant i <= |waiting| && queue == waiting[i..] && state == old(state)
        invariant Accounts()
        invariant forall j :: j in waiting[..i] ==> j.outcomes == [Rejected]
        invariant forall j :: j in jobs && j !in waiting[..i] ==> unchanged(j)
      {
        HeadIs();
        Cancel(waiting[i]);
        assert waiting[..i + 1] == waiting[..i] + [waiting[i]];
        i := i + 1;
      }
      assert waiting[..i] == waiting;
    }

    /** The counts shown to operators. */
    method Snapshot() returns (shown: State, count: nat, bytesReserved: int)
      requires Valid()
      ensures count <= maxJobs && 0 <= bytesReserved <= maxReserved
      ensures shown == state && (count == 0 ==> bytesReserved == 0)
      ensures shown == IDLE ==> count == 0
    {
      shown, count, bytesReserved := state, |queue| + (if active == null then 0 else 1), reserved;
    }

    /** At rest every admitted job has had exactly one outcome and nothing is reserved. */
    lemma AtRest()
      requires Valid() && run == NotRunning && (state == IDLE || state == CLOSED)
      ensures queue == [] && active == null && reserved == 0
      ensures forall j :: j in jobs ==> |j.outcomes| == 1
    {
    }

    /** While anything that was started for a lease is unfinished the slot holds on to its job. */
    lemma HeldWhileBusy()
      requires Valid() && !Now().Free?
      ensures state != IDLE && (run != NotRunning ==> active != null)
      ensures run == NotRunning ==> state == CLOSED || quiescent
    {
    }
  }
}
