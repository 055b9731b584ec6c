/** The durable job queue: rows claimed by workers, retried with backoff, dead-lettered, reaped and swept. */
module Jobs {
  import opened Text

  type JobId = nat
  type Worker = string

  const DEFAULT_MAX_ATTEMPTS: nat := 8
  /** Times are in milliseconds. */
  const STUCK_LOCK_MS: int := 45 * 60 * 1000
  const DEAD_KEPT_MS: int := 30 * 24 * 3600 * 1000
  const COMPLETED_KEPT_MS: int := 24 * 3600 * 1000

  datatype Status = Pending | InProgress | Completed | Dead

  datatype Row = Row(status: Status, attempts: nat, maxAttempts: nat, nextRunAt: int,
                     lockedBy: Option<Worker>, lockedAt: Option<int>, completedAt: Option<int>)

  /** What a claim returns: `attempts` is the number of this claim. */
  datatype Job = Job(id: JobId, attempts: nat, maxAttempts: nat)

  type Table = map<JobId, Row>

  function JobFor(rows: Table, id: JobId): Job {
    if id in rows then Job(id, rows[id].attempts, rows[id].maxAttempts) else Job(id, 0, 0)
  }

  // ---- backoff ----

  /** 2^attempt seconds, the attempt clamped to 1..8, plus under a second of jitter. */
  function BackoffMs(attempt: int, jitter: nat): nat {
    1000 * Pow2(if attempt < 1 then 1 else if attempt > 8 then 8 else attempt) + jitter
  }

  /** Delays start at two seconds, strictly increase up to the eighth attempt, whatever the jitter, and then stay
      within a second of 256. */
  lemma BackoffGrows(k: int, jitter: nat, jitter': nat)
    requires jitter < 1000 && jitter' < 1000
    ensures k <= 1 ==> 2000 <= BackoffMs(k, jitter) < 3000
    ensures 1 <= k < 8 ==> BackoffMs(k, jitter) < BackoffMs(k + 1, jitter')
    ensures k >= 8 ==> 256_000 <= BackoffMs(k, jitter) < 257_000
  {
    if 1 <= k < 8 {
      Pow2Positive(k);
      assert Pow2(k + 1) == 2 * Pow2(k);
    }
  }

  // ---- single-row updates ----

  function NewRow(runAt: int, maxAttempts: nat): Row {
    Row(Pending, 0, maxAttempts, runAt, None, None, None)
  }

  predicate Ready(r: Row, now: int) {
    r.status == Pending && r.nextRunAt <= now
  }

  function ClaimRow(r: Row, w: Worker, now: int): Row {
    r.(status := InProgress, lockedBy := Some(w), lockedAt := Some(now), attempts := r.attempts + 1)
  }

  function CompleteRow(r: Row, now: int): Row {
    r.(status := Completed, completedAt := Some(now), lockedBy := None, lockedAt := None)
  }

  function RetryRow(r: Row, runAt: int): Row {
    r.(status := Pending, nextRunAt := runAt, lockedBy := None, lockedAt := None)
  }

  function DeadRow(r: Row, now: int): Row {
    r.(status := Dead, completedAt := Some(now), lockedBy := None, lockedAt := None)
  }

  predicate Stuck(r: Row, now: int) {
    r.status == InProgress && r.lockedAt.Some? && r.lockedAt.value < now - STUCK_LOCK_MS
  }

  predicate Sweepable(r: Row, now: int) {
    r.completedAt.Some? &&
    ((r.status == Dead && r.completedAt.value < now - DEAD_KEPT_MS)
     || (r.status == Completed && r.completedAt.value < now - COMPLETED_KEPT_MS))
  }

  // ---- whole-table updates ----

  function ClaimAll(rows: Table, ids: set<JobId>, w: Worker, now: int): Table {
    map id | id in rows :: if id in ids then ClaimRow(rows[id], w, now) else rows[id]
  }

  function StuckIds(rows: Table, now: int): set<JobId> {
    set id | id in rows && Stuck(rows[id], now)
  }

  function ReapAll(rows: Table, now: int): Table {
    map id | id in rows :: if Stuck(rows[id], now) then RetryRow(rows[id], now) else rows[id]
  }

  function SweepAll(rows: Table, now: int): Table {
    map id | id in rows && !Sweepable(rows[id], now) :: rows[id]
  }

  /** `UPDATE ... WHERE id = $1`: a row that is gone is not updated. */
  function Update(rows: Table, id: JobId, f: Row -> Row): Table {
    if id in rows then rows[id := f(rows[id])] else rows
  }

  /** The lowest `limit` ids that are ready and not locked by another transaction. */
  predicate IsClaim(rows: Table, now: int, limit: nat, locked: set<JobId>, ids: set<JobId>) {
    var ready := set id | id in rows && Ready(rows[id], now) && id !in locked;
    && ids <= ready
    && |ids| <= limit
    && (|ids| < limit ==> ids == ready)
    && forall p, q :: p in ids && q in ready && q !in ids ==> p < q
  }

  /** How a worker disposes of a claimed job: released on shutdown, or by the dispatch's outcome. */
  datatype Verdict = Released | Done | Terminal | Retry

  function Dispose(rows: Table, job: Job, v: Verdict, now: int, jitter: nat): Table {
    match v
    case Released => Update(rows, job.id, r => RetryRow(r, now + BackoffMs(job.attempts, jitter)))
    case Done => Update(rows, job.id, r => CompleteRow(r, now))
    case Terminal => Update(rows, job.id, r => DeadRow(r, now))
    case Retry =>
      if job.attempts >= job.maxAttempts then Update(rows, job.id, r => DeadRow(r, now))
      else Update(rows, job.id, r => RetryRow(r, now + BackoffMs(job.attempts, jitter)))
  }

  /** One disposal: the verdict, when, with what jitter, and whether the database took the update. */
  datatype Disposal = Disposal(v: Verdict, now: int, jitter: nat, written: bool)

  function DisposeAll(rows: Table, jobs: seq<Job>, ds: seq<Disposal>): Table
    requires |jobs| == |ds|
  {
    if jobs == [] then rows
    else
      var d := ds[0];
      DisposeAll(if d.written then Dispose(rows, jobs[0], d.v, d.now, d.jitter) else rows, jobs[1..], ds[1..])
  }

  class JobQueue {
    var rows: Table
    var nextId: JobId

    constructor ()
      ensures rows == map[] && nextId == 1
    {
      rows, nextId := map[], 1;
    }

    method Enqueue(now: int, delay: nat) returns (id: JobId)
      modifies this
      ensures id == old(nextId) && nextId == id + 1
      ensures rows == old(rows)[id := NewRow(now + delay, 8)]
      ensures rows[id].status == Pending && rows[id].nextRunAt == now + delay && rows[id].attempts == 0
      ensures rows[id].lockedBy == None && rows[id].lockedAt == None && rows[id].completedAt == None
    {
      id := nextId;
      rows := rows[id := NewRow(now + delay, DEFAULT_MAX_ATTEMPTS)];
      nextId := nextId + 1;
    }

    /** Claims a batch in one statement; the jobs come back in no particular order, one per claimed row. */
    method ClaimBatch(w: Worker, now: int, limit: nat, locked: set<JobId>)
      returns (jobs: seq<Job>, ghost ids: set<JobId>)
      modifies `rows
      ensures |ids| <= limit && forall id :: id in ids ==>
        id in old(rows) && old(rows)[id].status == Pending && old(rows)[id].nextRunAt <= now && id !in locked
      ensures forall id ::
        (id in old(rows) && old(rows)[id].status == Pending && old(rows)[id].nextRunAt <= now && id !in locked) ==>
        id in ids || (|ids| == limit && forall p :: p in ids ==> p < id)
      ensures rows.Keys == old(rows).Keys && forall id :: id in rows && id !in ids ==> rows[id] == old(rows)[id]
      ensures forall id :: id in ids ==>
        rows[id] == old(rows)[id].(status := InProgress, attempts := old(rows)[id].attempts + 1,
                                   lockedBy := Some(w), lockedAt := Some(now))
      ensures IsClaim(old(rows), now, limit, locked, ids) && rows == ClaimAll(old(rows), ids, w, now)
      ensures |jobs| == |ids| && forall id :: id in ids ==> JobFor(rows, id) in jobs
    {
      var chosen := LowestReady(rows, now, limit, locked);
      ids := chosen;
      jobs := [];
      var rest := chosen;
      while rest != {}
        invariant rest <= ids <= old(rows).Keys
        invariant rows == ClaimAll(old(rows), ids - rest, w, now)
        invariant |jobs| + |rest| == |ids|
        invariant forall id :: id in ids && id !in rest ==> JobFor(rows, id) in jobs
      {
        var id :| id in rest;
        rows := rows[id := ClaimRow(rows[id], w, now)];
        jobs := jobs + [JobFor(rows, id)];
        rest := rest - {id};
      }
      assert ids - {} == ids;
    }

    method Complete(id: JobId, now: int)
      modifies `rows
      ensures rows == Update(old(rows), id, r => CompleteRow(r, now))
      ensures rows.Keys == old(rows).Keys && forall k :: k in rows && k != id ==> rows[k] == old(rows)[k]
      ensures id in rows ==>
        rows[id] == old(rows)[id].(status := Completed, completedAt := Some(now), lockedBy := None, lockedAt := None)
    {
      if id in rows {
        rows := rows[id := CompleteRow(rows[id], now)];
      }
    }

    method FailRetry(job: Job, now: int, jitter: nat)
      modifies `rows
      ensures rows == Update(old(rows), job.id, r => RetryRow(r, now + BackoffMs(job.attempts, jitter)))
      ensures rows.Keys == old(rows).Keys && forall k :: k in rows && k != job.id ==> rows[k] == old(rows)[k]
      ensures job.id in rows ==>
        rows[job.id] == old(rows)[job.id].(status := Pending, nextRunAt := now + BackoffMs(job.attempts, jitter),
                                           lockedBy := None, lockedAt := None)
    {
      var delay := BackoffMs(job.attempts, jitter);
      if job.id in rows {
        rows := rows[job.id := RetryRow(rows[job.id], now + delay)];
      }
    }

    method FailDead(id: JobId, now: int)
      modifies `rows
      ensures rows == Update(old(rows), id, r => DeadRow(r, now))
      ensures rows.Keys == old(rows).Keys && forall k :: k in rows && k != id ==> rows[k] == old(rows)[k]
      ensures id in rows ==>
        rows[id] == old(rows)[id].(status := Dead, completedAt := Some(now), lockedBy := None, lockedAt := None)
    {
      if id in rows {
        rows := rows[id := DeadRow(rows[id], now)];
      }
    }

    /**
      Rows locked for too long become ready again, with their attempts as they were; no other row changes, and none is
      left to reap.
      */
    method ReapStuck(now: int) returns (reaped: nat)
      modifies `rows
      ensures rows.Keys == old(rows).Keys
      ensures forall id :: id in rows ==>
        var r := old(rows)[id];
        rows[id] == if r.status == InProgress && r.lockedAt.Some? && r.lockedAt.value < now - 45 * 60 * 1000
                    then r.(status := Pending, nextRunAt := now, lockedBy := None, lockedAt := None)
                    else r
      ensures forall id :: id in rows ==> !Stuck(rows[id], now)
      ensures reaped == |StuckIds(old(rows), now)|
      ensures rows == ReapAll(old(rows), now)
    {
      var stuck := StuckIds(rows, now);
      reaped := |stuck|;
      var rest := stuck;
      while rest != {}
        invariant rest <= stuck <= old(rows).Keys && rows.Keys == old(rows).Keys
        invariant forall id :: id in rows ==>
          rows[id] == if id in stuck - rest then RetryRow(old(rows)[id], now) else old(rows)[id]
      {
        var id :| id in rest;
        rows := rows[id := RetryRow(rows[id], now)];
        rest := rest - {id};
      }
    }

    /** Only rows long finished or long dead go; every other row, and so every job still to be done, stays as it is. */
    method Sweep(now: int)
      modifies `rows
      ensures forall id :: id in rows ==> id in old(rows) && rows[id] == old(rows)[id]
      ensures forall id :: id in old(rows) && id !in rows ==>
        var r := old(rows)[id];
        && r.completedAt.Some?
        && (r.status == Dead || r.status == Completed)
        && r.completedAt.value < now - (if r.status == Dead then 30 else 1) * 24 * 3600 * 1000
      ensures forall id :: id in rows && rows[id].completedAt.Some? ==>
        && (rows[id].status == Dead ==> rows[id].completedAt.value >= now - 30 * 24 * 3600 * 1000)
        && (rows[id].status == Completed ==> rows[id].completedAt.value >= now - 24 * 3600 * 1000)
      ensures forall id :: id in rows ==> !Sweepable(rows[id], now)
      ensures rows == SweepAll(old(rows), now)
    {
      var gone := set id | id in rows && rows[id].status == Dead && Sweepable(rows[id], now);
      rows := rows - gone;
      gone := set id | id in rows && rows[id].status == Completed && Sweepable(rows[id], now);
      rows := rows - gone;
    }

    /** The worker's inner loop over one claimed batch. */
    method WorkBatch(jobs: seq<Job>, ds: seq<Disposal>)
      requires |jobs| == |ds|
      modifies `rows
      ensures rows == DisposeAll(old(rows), jobs, ds)
    {
      for i := 0 to |jobs|
        invariant DisposeAll(rows, jobs[i..], ds[i..]) == DisposeAll(old(rows), jobs, ds)
      {
        var job, d := jobs[i], ds[i];
        assert jobs[i..][1..] == jobs[i + 1..] && ds[i..][1..] == ds[i + 1..];
        if d.written {
          match d.v {
            case Released =>
              FailRetry(job, d.now, d.jitter);
            case Done =>
              Complete(job.id, d.now);
            case Terminal =>
              FailDead(job.id, d.now);
            case Retry =>
              if job.attempts >= job.maxAttempts {
                FailDead(job.id, d.now);
              } else {
                FailRetry(job, d.now, d.jitter);
              }
          }
        }
      }
    }
  }

  method LowestReady(rows: Table, now: int, limit: nat, locked: set<JobId>) returns (ids: set<JobId>)
    ensures IsClaim(rows, now, limit, locked, ids)
  {
    var ready := set id | id in rows && Ready(rows[id], now) && id !in locked;
    ids := {};
    while |ids| < limit && ids != ready
      invariant ids <= ready && |ids| <= limit
      invariant forall p, q :: p in ids && q in ready && q !in ids ==> p < q
      decreases limit - |ids|
    {
      var low := Lowest(ready - ids);
      assert forall q :: q in ready && q !in ids ==> q in ready - ids;
      ids := ids + {low};
    }
  }

  method Lowest(s: set<JobId>) returns (low: JobId)
    requires s != {}
    ensures low in s && forall x :: x in s ==> low <= x
  {
    low :| low in s;
    var rest := s - {low};
    while rest != {}
      invariant low in s && rest <= s
      invariant forall x :: x in s && x !in rest ==> low <= x
    {
      var x :| x in rest;
      if x < low {
        low := x;
      }
      rest := rest - {x};
    }
  }
}
